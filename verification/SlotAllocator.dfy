/** The device-space allocator as the code runs it: lookups in the hybrid freelist, a high-water mark
    and a redo log, updated in place. Each method is proved against AllocatorSpec. */
module SlotAllocators {
  import opened Prelude
  import opened Rounding
  import opened Regions
  import opened Freelist
  import opened Redo
  import opened AllocatorSpec
  import opened Device
  import opened HeaderCodec

  // ----- two neighbour lookups decide questions about the whole freelist -----

  /** Byte `x` is free exactly when the region starting at or before it reaches past it. */
  lemma PrevDecides(m: FreeMap, x: nat, prev: Option<(nat, nat)>)
    requires Canonical(m) && PrevAnswer(m, x + 1, prev)
    ensures x in Bytes(m) <==> prev.Some? && x < prev.value.0 + prev.value.1
  {
    if prev.Some? && x < prev.value.0 + prev.value.1 { Owned(m, prev.value.0, x); }
    if x in Bytes(m) { var o := Owner(m, x); }
  }

  /** [lo, hi) is free of overlap exactly when its first byte is not free and no region starts inside it. */
  lemma NeighboursDecide(m: FreeMap, lo: nat, hi: nat, next: Option<(nat, nat)>)
    requires Canonical(m) && lo < hi && NextAnswer(m, lo, next)
    ensures Range(lo, hi - lo) !! Bytes(m) <==> lo !in Bytes(m) && (next.None? || hi <= next.value.0)
  {
    DisjointRange(m, lo, hi - lo);
    InRange(lo, hi - lo, lo);
    if lo !in Bytes(m) && (next.None? || hi <= next.value.0) {
      forall o | o in m ensures o + m[o] <= lo || hi <= o {
        if o < lo < o + m[o] { Owned(m, o, lo); }
      }
    }
  }

  /** [lo, hi) is wholly free exactly when the region holding its first byte reaches `hi`. */
  lemma PrevContains(m: FreeMap, lo: nat, hi: nat, prev: Option<(nat, nat)>)
    requires Canonical(m) && lo < hi && PrevAnswer(m, lo + 1, prev)
    ensures Range(lo, hi - lo) <= Bytes(m) <==> prev.Some? && hi <= prev.value.0 + prev.value.1
  {
    if prev.Some? && hi <= prev.value.0 + prev.value.1 {
      forall x | x in Range(lo, hi - lo) ensures x in Bytes(m) { Owned(m, prev.value.0, x); }
    }
    if Range(lo, hi - lo) <= Bytes(m) {
      var o := CoveredByOne(m, lo, hi - lo);
    }
  }

  /** The lowest overlapping region is the one holding the first byte, else the next one if it starts inside. */
  lemma FirstOverlapFound(m: FreeMap, lo: nat, hi: nat, prev: Option<(nat, nat)>, next: Option<(nat, nat)>)
    requires Canonical(m) && lo < hi && PrevAnswer(m, lo + 1, prev) && NextAnswer(m, lo, next)
    ensures prev.Some? && lo < prev.value.0 + prev.value.1 ==> IsFirstOverlap(m, lo, hi, prev.value.0)
    ensures !(prev.Some? && lo < prev.value.0 + prev.value.1) && next.Some? && next.value.0 < hi ==>
              IsFirstOverlap(m, lo, hi, next.value.0)
    ensures !(prev.Some? && lo < prev.value.0 + prev.value.1) && !(next.Some? && next.value.0 < hi) ==>
              forall p :: !Overlaps(m, lo, hi, p)
  {
  }

  lemma FirstOverlapUnique(m: FreeMap, lo: nat, hi: nat, o: nat)
    requires IsFirstOverlap(m, lo, hi, o)
    ensures o == FirstOverlap(m, lo, hi)
  {
    var f := FirstOverlap(m, lo, hi);
    assert Overlaps(m, lo, hi, f) && Overlaps(m, lo, hi, o);
  }

  /** The lookup before `offset` finds the region that ends at `offset`, if there is one. */
  lemma PrevTouches(m: FreeMap, offset: nat, end: nat, prev: Option<(nat, nat)>)
    requires Canonical(m) && offset < end && PrevAnswer(m - {end}, offset, prev)
    ensures prev.Some? ==> prev.value.0 in m && prev.value.1 == m[prev.value.0] && prev.value.0 < offset
    ensures forall p :: p in m && p + m[p] == offset ==> prev.Some? && prev.value.0 == p
  {
    forall p | p in m && p + m[p] == offset ensures prev.Some? && prev.value.0 == p {
      assert p in m - {end} && p < offset;
    }
  }

  lemma NextTouches(m: FreeMap, end: nat, next: Option<(nat, nat)>)
    requires NextAnswer(m, end, next)
    ensures next.Some? && next.value.0 == end <==> end in m
    ensures next.Some? && next.value.0 == end ==> next.value.1 == m[end]
  {
  }

  /** Merging with the neighbours the two lookups found is the same as adding the range. */
  lemma MergeFound(m: FreeMap, offset: nat, size: nat, next: Option<(nat, nat)>, prev: Option<(nat, nat)>)
    requires Canonical(m) && size > 0 && Range(offset, size) !! Bytes(m)
    requires NextAnswer(m, offset + size, next)
    requires PrevAnswer(m - {offset + size}, offset, prev)
    ensures next.Some? && next.value.0 == offset + size <==> offset + size in m
    ensures next.Some? && next.value.0 == offset + size ==> next.value.1 == m[offset + size]
    ensures var right := if next.Some? && next.value.0 == offset + size then next.value.1 else 0;
            var left := if prev.Some? && prev.value.0 + prev.value.1 == offset then prev.value.1 else 0;
            left <= offset &&
            AddRange(m, offset, size) ==
              (m - {offset + size} - {offset - left})[offset - left := left + size + right]
  {
    hide AddRange, Bytes, Range, Canonical, NextAnswer, PrevAnswer;
    NextTouches(m, offset + size, next);
    PrevTouches(m, offset, offset + size, prev);
    var right := if offset + size in m then m[offset + size] else 0;
    var left := if prev.Some? && prev.value.0 + prev.value.1 == offset then prev.value.1 else 0;
    AddRangeIs(m, offset, size, offset - left, right);
  }

  ghost function SumSizes(v: seq<FreeRegion>): nat {
    if v == [] then 0 else SumSizes(v[..|v| - 1]) + v[|v| - 1].size
  }

  /** The sizes of a canonical freelist add up to the number of free bytes. */
  lemma {:induction false} SumIsBytes(v: seq<FreeRegion>, m: FreeMap)
    requires Lists(v, m) && Canonical(m)
    ensures SumSizes(v) == |Bytes(m)|
  {
    if v == [] {
      assert Bytes(m) == {};
    } else {
      var n := |v| - 1;
      var r := v[n];
      ListsDropLast(v, m);
      SumIsBytes(v[..n], m - {r.offset});
      RemoveBytes(m, r.offset);
      RangeSize(r.offset, r.size);
    }
  }

  datatype PendingBatch = PendingBatch(
    regions: seq<Option<Region>>,
    rollback: seq<(nat, Reservation)>,
    allocRedoOps: seq<RedoOp>)

  datatype PersistError = FreelistOverflow(entries: nat, max: nat) | Device(error: DeviceError)

  class SlotAllocator {
    const cfg: Config
    const freelist: FreelistBackend
    var nextOffset: nat
    const redoLog: RedoLog?
    const device: BlockDevice
    const deviceId: seq<byte>

    ghost function View(): State
      reads this, freelist
    {
      State(freelist.view, nextOffset)
    }

    ghost predicate Valid()
      reads this, freelist
    {
      ValidConfig(cfg) && freelist.Valid() && WellFormed(cfg, View())
    }

    /** The device matches the settings it was opened with. */
    ghost predicate Attached() {
      && device.Valid() && device.alignment == cfg.alignment && device.live.Length == cfg.deviceSize
      && |deviceId| == ID_SIZE
    }

    /** A fresh allocator over a device that holds no header. */
    constructor (cfg: Config, redoLog: RedoLog?, device: BlockDevice, deviceId: seq<byte>)
      requires ValidConfig(cfg)
      ensures Valid() && View() == INITIAL && fresh(freelist)
      ensures this.cfg == cfg && this.redoLog == redoLog && this.device == device && this.deviceId == deviceId
    {
      this.cfg := cfg;
      this.redoLog := redoLog;
      this.device := device;
      this.deviceId := deviceId;
      freelist := new FreelistBackend();
      nextOffset := DATA_REGION_OFFSET;
      new;
      InitialWellFormed(cfg);
    }

    /** The allocator a decoded header describes; its regions are inserted one by one. */
    constructor FromDecoded(cfg: Config, device: BlockDevice, h: Header)
      requires ValidConfig(cfg) && Sorted(h.entries) && WellFormed(cfg, FromHeader(h))
      ensures Valid() && View() == FromHeader(h) && fresh(freelist)
      ensures this.cfg == cfg && this.redoLog == null && this.device == device && this.deviceId == h.deviceId
    {
      this.cfg := cfg;
      redoLog := null;
      this.device := device;
      deviceId := h.deviceId;
      freelist := new FreelistBackend();
      nextOffset := h.next;
      new;
      hide FreelistBackend.Valid, WellFormed;
      var v := h.entries;
      for i := 0 to |v|
        invariant freelist.Valid() && fresh(freelist) && nextOffset == h.next
        invariant freelist.view == MapOf(v[..i])
        invariant forall o :: o in freelist.view ==> exists k :: 0 <= k < i && v[k].offset == o
      {
        assert v[..i + 1][..i] == v[..i];
        freelist.Insert(v[i].offset, v[i].size);
      }
      assert v[..|v|] == v;
      freelist.MaybePromote();
    }

    /** Writes the header without making it durable. */
    method PersistHeaderNoSync(crc: Checksum) returns (r: Result<(), PersistError>)
      requires Valid() && Attached() && cfg.deviceSize >= DATA_REGION_OFFSET
      modifies device.live, device`script
      ensures !Persistable(View()) ==>
                && r == Err(FreelistOverflow(|View().free|, MAX_PERSISTED_FREE_REGIONS))
                && device.live[..] == old(device.live[..]) && device.script == old(device.script)
      ensures old(device.Healthy()) ==> device.Healthy() && (r.Ok? <==> Persistable(View()))
      ensures r.Ok? ==> Persistable(View())
      ensures r.Ok? ==> device.live[..] == WithHeader(old(device.live[..]), cfg, View(), deviceId, crc)
      ensures device.live[DATA_REGION_OFFSET..] == old(device.live[DATA_REGION_OFFSET..])
    {
      hide FreelistBackend.Valid, WellFormed, RoundUp, Encode, Lists, Deliver, BlockDevice.Healthy;
      var entries := freelist.Len();
      if entries > MAX_PERSISTED_FREE_REGIONS {
        return Err(FreelistOverflow(entries, MAX_PERSISTED_FREE_REGIONS));
      }
      var v := freelist.InOffsetOrder();
      ListsSame(v, SortedList(freelist.view), freelist.view);
      var h := Header(nextOffset, deviceId, cfg.packed, v);
      var buf := BuildHeader(h, cfg.alignment, crc);
      HeaderBelowData(cfg, View(), deviceId, crc);
      ghost var was := device.live[..];
      var b := buf[..];
      RoundUpBounds(|Encode(h, crc)|, cfg.alignment);
      assert device.Takes(0, |b|);
      var written, done := device.PwriteAllAt(b, 0);
      SpliceTail(was, b[..done], DATA_REGION_OFFSET);
      match written {
        case Err(e) => r := Err(Device(e));
        case Ok(_) =>
          assert b[..done] == b;
          r := Ok(());
      }
    }

    static lemma SpliceTail(s: seq<byte>, b: seq<byte>, from: nat)
      requires |b| <= from <= |s|
      ensures Splice(s, 0, b)[from..] == s[from..]
    {
    }

    /** Writes the header and syncs the device. */
    method Persist(crc: Checksum) returns (r: Result<(), PersistError>)
      requires Valid() && Attached() && cfg.deviceSize >= DATA_REGION_OFFSET
      modifies device.live, device.shadow, device`script
      ensures old(device.Healthy()) ==> device.Healthy() && (r.Ok? <==> Persistable(View()))
      ensures r.Ok? ==> Persistable(View())
      ensures r.Ok? ==> device.live[..] == WithHeader(old(device.live[..]), cfg, View(), deviceId, crc)
      ensures r.Ok? && device.shadow != null ==> device.shadow[..] == device.live[..]
      ensures r.Err? && device.shadow != null ==> device.shadow[..] == old(device.shadow[..])
    {
      r := PersistHeaderNoSync(crc);
      if r.Ok? {
        device.Sync();
      }
    }

    /** A header that was persisted lists its regions in order and describes a well-formed state. */
    static ghost predicate Sound(device: BlockDevice, crc: Checksum)
      reads device.live
      requires device.alignment >= MIN_ALIGNMENT
    {
      var d := Decode(device.live[..], device.alignment, crc);
      d.Ok? ==> Sorted(d.value.entries) && WellFormed(Opened(device, d.value.packed), FromHeader(d.value))
    }

    /** The settings of a freshly opened allocator: the mode comes from the header. */
    static function Opened(device: BlockDevice, packed: bool): Config {
      Config(device.live.Length, device.alignment, packed, false, 0)
    }

    /** Reopens the allocator from the header on `device`, or says why it must not be trusted. */
    static method Recover(device: BlockDevice, crc: Checksum) returns (r: Result<SlotAllocator, HeaderError>)
      requires device.Valid() && ValidConfig(Opened(device, false)) && Sound(device, crc)
      modifies device`script
      ensures old(device.Healthy()) && r.Err? ==> Decode(device.live[..], device.alignment, crc) == Err(r.error)
      ensures r.Err? ==> r.error.DeviceFailure? || Decode(device.live[..], device.alignment, crc) == Err(r.error)
      ensures r.Ok? ==>
                var d := Decode(device.live[..], device.alignment, crc);
                && d.Ok? && fresh(r.value) && fresh(r.value.freelist) && r.value.Valid()
                && r.value.View() == FromHeader(d.value) && r.value.cfg == Opened(device, d.value.packed)
                && r.value.deviceId == d.value.deviceId && r.value.redoLog == null && r.value.device == device
    {
      hide Decode;
      var h := ReadHeader(device, crc);
      if h.Err? {
        return Err(h.error);
      }
      var a := new SlotAllocator.FromDecoded(Opened(device, h.value.packed), device, h.value);
      r := Ok(a);
    }

    /** Persisting, losing power and reopening gives back the same allocator, or a device failure. */
    method PersistAndReopen(crc: Checksum) returns (p: Result<(), PersistError>, r: Result<SlotAllocator, HeaderError>)
      requires Valid() && Attached() && cfg.deviceSize >= DATA_REGION_OFFSET
      modifies device.live, device.shadow, device`script
      ensures Valid() && View() == old(View())
      ensures old(device.Healthy()) && Persistable(View()) ==> p.Ok? && r.Ok?
      ensures p.Ok? && r.Err? ==> r.error.DeviceFailure?
      ensures p.Ok? && r.Ok? ==>
                && fresh(r.value) && r.value.Valid() && r.value.View() == View() && r.value.deviceId == deviceId
                && r.value.cfg.packed == cfg.packed && r.value.cfg.deviceSize == cfg.deviceSize && r.value.device == device
    {
      hide Decode, Encode, WithHeader, FreelistBackend.Valid, WellFormed, SortedList, MapOf, FromHeader;
      ghost var was := device.live[..];
      p := Persist(crc);
      if p.Err? {
        return p, Err(DeviceFailure);
      }
      var lost := device.SimulatePowerLoss();
      Reopens(cfg, View(), deviceId, crc, was, device);
      r := Recover(device, crc);
    }

    /** What was persisted satisfies what recovery relies on. */
    static lemma Reopens(c: Config, s: State, id: seq<byte>, crc: Checksum, was: seq<byte>, device: BlockDevice)
      requires ValidConfig(c) && WellFormed(c, s) && Persistable(s) && |id| == ID_SIZE
      requires device.alignment == c.alignment && device.live.Length == c.deviceSize == |was| >= DATA_REGION_OFFSET
      requires device.live[..] == WithHeader(was, c, s, id, crc)
      ensures ValidConfig(Opened(device, false)) && Sound(device, crc)
      ensures Decode(device.live[..], device.alignment, crc) == Ok(HeaderOf(c, s, id)) && FromHeader(HeaderOf(c, s, id)) == s
    {
      hide Decode, Encode, RoundUp, WithHeader, MapOf;
      PersistRecover(c, s, id, crc, was, device.live[..]);
      var v := SortedList(s.free);
      assert Sorted(v);
    }

    /** Reads and checks the header: first the leading block, then everything the region count calls for. */
    static method ReadHeader(device: BlockDevice, crc: Checksum) returns (r: Result<Header, HeaderError>)
      requires device.Valid() && device.alignment >= MIN_ALIGNMENT
      modifies device`script
      ensures r == Err(DeviceFailure) || r == Decode(device.live[..], device.alignment, crc)
      ensures old(device.Healthy()) ==> r == Decode(device.live[..], device.alignment, crc)
    {
      hide FromLittleEndian, DecodeEntries, RoundUp, ForChecksum, BlockDevice.Healthy;
      ghost var d := device.live[..];
      var first := ReadPrefix(device, device.alignment);
      if first.Err? {
        return Err(DeviceFailure);
      }
      var b := first.value;
      SameAt(b, d);
      if U64At(b, 0) != MAGIC {
        if forall i :: 0 <= i < device.alignment ==> b[i] == 0 {
          return Err(NoPersistedState);
        }
        return Err(CorruptedHeader);
      }
      var version, count := U32At(b, 40), U64At(b, 16);
      if version != HEADER_VERSION && version != HEADER_VERSION_PACKED {
        return Err(UnsupportedVersion(version));
      }
      if count > MAX_PERSISTED_FREE_REGIONS {
        return Err(CorruptedHeader);
      }
      var end := FREELIST_OFFSET + ENTRY_SIZE * count;
      RoundUpBounds(end, device.alignment);
      var whole := ReadPrefix(device, RoundUp(end, device.alignment));
      if whole.Err? {
        return Err(DeviceFailure);
      }
      var f := whole.value;
      SameAt(f, d);
      DecodeEntriesPrefix(f, d, count);
      SameChecksumInput(f, d, end);
      var stored, actual := U32At(f, HEADER_CRC_OFFSET), crc(ForChecksum(f, end));
      if actual != stored {
        return Err(HeaderCorruption(stored, actual));
      }
      r := Ok(Header(U64At(b, 8), b[24..40], version == HEADER_VERSION_PACKED, DecodeEntries(f, count)));
    }

    /** The first `n` bytes of the device. */
    static method ReadPrefix(device: BlockDevice, n: nat) returns (r: Result<seq<byte>, HeaderError>)
      requires device.Valid() && n > 0 && n % device.alignment == 0
      modifies device`script
      ensures r.Ok? ==> n <= device.live.Length && r.value == device.live[..n]
      ensures r.Err? ==> r == Err(DeviceFailure)
      ensures old(device.Healthy()) ==> device.Healthy() && (r.Ok? <==> n <= device.live.Length)
    {
      var buf := new byte[n];
      var read, got := device.PreadExactAt(buf, 0);
      assert read.Ok? ==> buf[..] == device.live[..n];
      r := if read.Ok? then Ok(buf[..]) else Err(DeviceFailure);
    }

    static lemma SameChecksumInput(p: seq<byte>, d: seq<byte>, end: nat)
      requires FREELIST_OFFSET <= end <= |p| && p <= d
      ensures ForChecksum(p, end) == ForChecksum(d, end)
    {
      assert p[..HEADER_CRC_OFFSET] == d[..HEADER_CRC_OFFSET];
      assert p[FREELIST_OFFSET..end] == d[FREELIST_OFFSET..end];
    }

    method ReserveAligned(a: u64) returns (r: Result<(nat, Reservation), AllocError>)
      requires Valid()
      modifies this, freelist
      ensures Valid()
      ensures Reserve(cfg, old(View()), a).None? ==>
                && View() == old(View()) && r.Err? && r.error.DeviceFull? && r.error.requested == a
                && IsLargest(View().free, r.error.largestFree)
      ensures Reserve(cfg, old(View()), a).Some? ==>
                var res := Reserve(cfg, old(View()), a).value;
                View() == res.state && r == Ok((res.offset, res.undo))
    {
      ghost var before := View();
      if Reserve(cfg, before, a).Some? { ReserveTakes(cfg, before, a); }
      var taken: Option<(nat, nat)> := None;
      if !cfg.appendOnly {
        SizesFit(cfg, before);
        taken := freelist.BestFit(a, Place(cfg, a));
      }
      if taken.Some? {
        BestUnique(before.free, a, Place(cfg, a), taken.value.0);
        freelist.MaybeDemote();
        r := Ok((taken.value.0, FromFreelist(taken.value.0, taken.value.1)));
      } else {
        var previous, offset := nextOffset, nextOffset;
        if cfg.packed {
          var block := cfg.alignment;
          var needBump := if a <= block then offset % block + a > block else offset % block != 0;
          if needBump {
            offset := RoundUp(offset, block);
          }
        }
        assert offset == AppendPoint(cfg, before.next, a);
        if offset + a > cfg.deviceSize {
          var largest := freelist.Largest();
          return Err(DeviceFull(a, largest));
        }
        nextOffset := offset + a;
        r := Ok((offset, FromHighWater(previous)));
      }
    }

    static lemma SizesFit(c: Config, s: State)
      requires ValidConfig(c) && WellFormed(c, s)
      ensures forall o :: o in s.free ==> s.free[o] < U64_LIMIT - 1
    {
      forall o | o in s.free ensures s.free[o] < U64_LIMIT - 1 {
        assert o + s.free[o] <= c.deviceSize;
      }
    }

    /** Removes the neighbours that touch [offset, offset + size) and returns the merged region. */
    method CoalesceAdjacent(offset: nat, size: nat) returns (finalOffset: nat, finalSize: nat)
      requires freelist.Valid() && Canonical(freelist.view)
      requires size > 0 && Range(offset, size) !! Bytes(freelist.view)
      modifies freelist
      ensures freelist.Valid() && finalOffset !in freelist.view
      ensures freelist.view[finalOffset := finalSize] == AddRange(old(freelist.view), offset, size)
    {
      hide FreelistBackend.Valid, AddRange, Bytes, NextAnswer, PrevAnswer, Canonical;
      ghost var m := freelist.view;
      NotFree(m, offset, size);
      finalOffset, finalSize := offset, size;
      var next := freelist.NextFrom(offset + size);
      if next.Some? && next.value.0 == offset + size {
        var _ := freelist.Remove(next.value.0);
        finalSize := finalSize + next.value.1;
      } else {
        NextAbsent(m, offset + size, next);
      }
      assert freelist.view == m - {offset + size};
      var prev := freelist.PrevBefore(offset);
      if prev.Some? && prev.value.0 + prev.value.1 == offset {
        var _ := freelist.Remove(prev.value.0);
        finalOffset := prev.value.0;
        finalSize := finalSize + prev.value.1;
      }
      MergeFound(m, offset, size, next, prev);
    }

    static lemma NextAbsent(m: FreeMap, boundary: nat, next: Option<(nat, nat)>)
      requires NextAnswer(m, boundary, next) && (next.None? || next.value.0 != boundary)
      ensures boundary !in m
    {
    }

    static lemma NotFree(m: FreeMap, offset: nat, size: nat)
      requires Canonical(m) && size > 0 && Range(offset, size) !! Bytes(m)
      ensures offset !in m
    {
      InRange(offset, size, offset);
      if offset in m { Owned(m, offset, offset); }
    }

    /** Undoes the reservation that turned `before` into the current state. */
    method RollbackReservation(a: nat, undo: Reservation, ghost before: State)
      requires Valid() && WellFormed(cfg, before) && Undo(cfg, before, View(), (a, undo))
      modifies this, freelist
      ensures Valid() && View() == before
    {
      hide FreelistBackend.Valid, AddRange, Bytes, Canonical, Reserve;
      RollbackExact(cfg, before, a);
      match undo {
        case FromFreelist(allocOffset, regionSize) =>
          if regionSize > a {
            var _ := freelist.Remove(allocOffset + a);
          }
          var finalOffset, finalSize := CoalesceAdjacent(allocOffset, regionSize);
          freelist.Insert(finalOffset, finalSize);
          freelist.MaybePromote();
        case FromHighWater(previous) =>
          nextOffset := previous;
      }
    }

    /** The attached log would make an append durable; without a log nothing needs journaling. */
    ghost predicate Journals(fate: Fate)
      reads redoLog
    {
      redoLog != null ==> Accepts(redoLog.log, fate)
    }

    /** Reserves space for `size` bytes; the caller gets it only once the reservation is journaled. */
    method Allocate(size: u64, fate: Fate) returns (r: Result<nat, AllocError>)
      requires Valid()
      modifies this, freelist, redoLog
      ensures Valid()
      ensures var a := AlignReservation(cfg, size);
              match Reserve(cfg, old(View()), a)
              case None =>
                && r.Err? && r.error.DeviceFull? && View() == old(View())
                && r.error.requested == a && IsLargest(View().free, r.error.largestFree)
                && (redoLog != null ==> redoLog.log == old(redoLog.log))
              case Some(res) =>
                && (if old(Journals(fate)) then r == Ok(res.offset) && View() == res.state
                    else r == Err(RedoLogFailure) && View() == old(View()))
                && (redoLog != null ==>
                      redoLog.log == Append(old(redoLog.log), [AllocateRegion(res.offset, a, cfg.redoDeviceId)], fate))
    {
      hide FreelistBackend.Valid, WellFormed, Reserve, AlignReservation;
      ghost var before := View();
      var a := AlignReservation(cfg, size);
      var reserved := ReserveAligned(a);
      if reserved.Err? {
        return Err(reserved.error);
      }
      var (offset, undo) := reserved.value;
      if redoLog != null {
        var ok := redoLog.AppendBatchAndFlush([AllocateRegion(offset, a, cfg.redoDeviceId)], fate);
        if !ok {
          RollbackReservation(a, undo, before);
          return Err(RedoLogFailure);
        }
      }
      r := Ok(offset);
    }

    /** Reserves every size in order, in memory only; sizes that do not fit are passed over. */
    method ReserveBatch(sizes: seq<u64>) returns (p: PendingBatch)
      requires Valid()
      modifies this, freelist
      ensures Valid()
      ensures var b := ReserveAll(cfg, old(View()), sizes);
              View() == b.state && p == PendingBatch(b.regions, b.undos, b.ops)
      ensures Undoes(cfg, old(View()), View(), p.rollback)
    {
      hide FreelistBackend.Valid, WellFormed, Reserve, AlignReservation, Undoes;
      ghost var before := View();
      ghost var b := ReserveAll(cfg, before, []);
      p := PendingBatch([], [], []);
      for i := 0 to |sizes|
        invariant Valid()
        invariant b == ReserveAll(cfg, before, sizes[..i])
        invariant View() == b.state && p == PendingBatch(b.regions, b.undos, b.ops)
      {
        assert sizes[..i + 1][..i] == sizes[..i];
        b := ReserveNext(cfg, b, sizes[i]);
        var a := AlignReservation(cfg, sizes[i]);
        var reserved := ReserveAligned(a);
        match reserved {
          case Ok((offset, undo)) =>
            p := PendingBatch(p.regions + [Some(Region(offset, a))], p.rollback + [(a, undo)],
                              p.allocRedoOps + [AllocateRegion(offset, a, cfg.redoDeviceId)]);
          case Err(_) =>
            p := p.(regions := p.regions + [None]);
        }
      }
      assert sizes[..|sizes|] == sizes;
      ReserveAllUndoes(cfg, before, sizes);
    }

    /** Undoes a batch, last reservation first. `before` is the state the batch started from. */
    method RollbackPending(rollback: seq<(nat, Reservation)>, ghost before: State)
      requires Valid() && Undoes(cfg, before, View(), rollback)
      modifies this, freelist
      ensures Valid() && View() == before
    {
      hide FreelistBackend.Valid, WellFormed, Undo;
      var n := |rollback|;
      assert rollback[..n] == rollback;
      while n > 0
        invariant 0 <= n <= |rollback| && Valid()
        invariant Undoes(cfg, before, View(), rollback[..n])
      {
        n := n - 1;
        assert rollback[..n + 1][..n] == rollback[..n];
        ghost var mid :| WellFormed(cfg, mid) && Undoes(cfg, before, mid, rollback[..n]) &&
                         Undo(cfg, mid, View(), rollback[n]);
        RollbackReservation(rollback[n].0, rollback[n].1, mid);
      }
    }

    /** Reserves and journals a whole batch with one flush, or leaves no trace of it. */
    method AllocateBatch(sizes: seq<u64>, fate: Fate) returns (r: Result<seq<Option<Region>>, AllocError>)
      requires Valid()
      modifies this, freelist, redoLog
      ensures Valid()
      ensures var b := ReserveAll(cfg, old(View()), sizes);
              && (if b.ops == [] || old(Journals(fate)) then r == Ok(b.regions) && View() == b.state
                  else r == Err(RedoLogFailure) && View() == old(View()))
              && (redoLog != null ==>
                    redoLog.log == if b.ops == [] then old(redoLog.log) else Append(old(redoLog.log), b.ops, fate))
    {
      hide FreelistBackend.Valid, WellFormed, ReserveAll, Undoes;
      ghost var before := View();
      var p := ReserveBatch(sizes);
      if redoLog != null && p.allocRedoOps != [] {
        var ok := redoLog.AppendBatchAndFlush(p.allocRedoOps, fate);
        if !ok {
          RollbackPending(p.rollback, before);
          return Err(RedoLogFailure);
        }
      }
      r := Ok(p.regions);
    }

    /** The free region that holds byte `offset`. */
    method FreeRegionContaining(offset: nat) returns (r: Option<(nat, nat)>)
      requires Valid()
      ensures r.Some? <==> offset in Bytes(freelist.view)
      ensures r.Some? ==> r.value.0 in freelist.view && r.value.1 == freelist.view[r.value.0]
      ensures r.Some? ==> r.value.0 <= offset < r.value.0 + r.value.1
    {
      hide FreelistBackend.Valid, Bytes, Canonical;
      var prev := freelist.PrevBefore(offset + 1);
      PrevDecides(freelist.view, offset, prev);
      if prev.Some? && offset < prev.value.0 + prev.value.1 {
        r := prev;
      } else {
        r := None;
      }
    }

    /** Returns [offset, offset + size) to the freelist. Two neighbour lookups decide whether the range
        touches any free region at all. */
    method Free(offset: nat, size: u64, fate: Fate) returns (r: Result<(), AllocError>)
      requires Valid()
      modifies this, freelist, redoLog
      ensures Valid()
      ensures var a := AlignReservation(cfg, size);
              if !Releasable(cfg, old(View()), offset, a) then
                && r.Err? && !r.error.RedoLogFailure? && View() == old(View())
                && (redoLog != null ==> redoLog.log == old(redoLog.log))
              else
                && (if old(Journals(fate)) then r == Ok(()) && View() == Release(cfg, old(View()), offset, a)
                    else r == Err(RedoLogFailure) && View() == old(View()))
                && (redoLog != null ==>
                      redoLog.log == Append(old(redoLog.log), [RedoOp.FreeRegion(offset, a, cfg.redoDeviceId)], fate))
      ensures r.Err? && r.error.InvalidFree? <==> !InData(cfg, offset, AlignReservation(cfg, size))
      ensures r.Err? && r.error.InvalidFree? ==> r.error == InvalidFree(offset, AlignReservation(cfg, size))
      ensures r.Err? && r.error.DoubleFree? ==>
                var a, free := AlignReservation(cfg, size), old(freelist.view);
                && Overlaps(free, offset, offset + a, r.error.freeOffset)
                && r.error == DoubleFree(offset, a, r.error.freeOffset, free[r.error.freeOffset])
    {
      hide FreelistBackend.Valid, AlignReservation, Bytes, Canonical, AddRange, NextAnswer, Inside;
      ghost var before := View();
      var a := AlignReservation(cfg, size);
      if a == 0 || offset + a >= U64_LIMIT || offset < DATA_REGION_OFFSET || offset + a > cfg.deviceSize {
        return Err(InvalidFree(offset, a));
      }
      var held := FreeRegionContaining(offset);
      if held.Some? {
        InRange(offset, a, offset);
        return Err(DoubleFree(offset, a, held.value.0, held.value.1));
      }
      var next := freelist.NextFrom(offset);
      NeighboursDecide(freelist.view, offset, offset + a, next);
      if next.Some? && next.value.0 < offset + a {
        NextOverlaps(freelist.view, offset, offset + a, next);
        return Err(DoubleFree(offset, a, next.value.0, next.value.1));
      }
      ReleaseKeeps(cfg, before, offset, a);
      if redoLog != null {
        var ok := redoLog.AppendBatchAndFlush([RedoOp.FreeRegion(offset, a, cfg.redoDeviceId)], fate);
        if !ok {
          return Err(RedoLogFailure);
        }
      }
      var finalOffset, finalSize := CoalesceAdjacent(offset, a);
      freelist.Insert(finalOffset, finalSize);
      freelist.MaybePromote();
      r := Ok(());
    }

    static lemma NextOverlaps(m: FreeMap, lo: nat, hi: nat, next: Option<(nat, nat)>)
      requires Canonical(m) && NextAnswer(m, lo, next) && next.Some? && next.value.0 < hi
      ensures Overlaps(m, lo, hi, next.value.0)
    {
    }

    /** Cuts [offset, offset + size) out of the lowest free region it overlaps. */
    method CarveAllocation(offset: nat, size: nat) returns (changed: bool)
      requires freelist.Valid() && Canonical(freelist.view) && size > 0
      modifies freelist
      ensures freelist.Valid() && freelist.view == CarveFirst(old(freelist.view), offset, offset + size)
      ensures changed <==> freelist.view != old(freelist.view)
    {
      hide FreelistBackend.Valid, Bytes, NextAnswer, PrevAnswer, Canonical, IsFirstOverlap, FirstOverlap, CarveFirst, Cut;
      ghost var m := freelist.view;
      var end := offset + size;
      var prev := freelist.PrevBefore(offset + 1);
      var next := freelist.NextFrom(offset);
      FirstOverlapFound(m, offset, end, prev, next);
      var overlap := if prev.Some? && prev.value.0 + prev.value.1 > offset then prev
                     else if next.Some? && next.value.0 < end then next
                     else None;
      if overlap.None? {
        NothingToCarve(m, offset, end);
        return false;
      }
      CarveTarget(m, offset, end, overlap, prev, next);
      CarveAt(offset, end, overlap.value.0, overlap.value.1);
      freelist.MaybePromote();
      freelist.MaybeDemote();
      changed := true;
    }

    /** Replaces region [o, o + size) by what [lo, hi) leaves of it. */
    method CarveAt(lo: nat, hi: nat, o: nat, size: nat)
      requires freelist.Valid() && Canonical(freelist.view) && o in freelist.view && size == freelist.view[o]
      requires lo < hi && o < hi && lo < o + size
      modifies freelist
      ensures freelist.Valid() && freelist.view == Cut(old(freelist.view), o, lo, hi)
    {
      hide FreelistBackend.Valid, Bytes;
      assert hi < o + size ==> hi !in freelist.view;
      var _ := freelist.Remove(o);
      if o < lo {
        freelist.Insert(o, lo - o);
      }
      if hi < o + size {
        freelist.Insert(hi, o + size - hi);
      }
    }

    static lemma CarveTarget(m: FreeMap, lo: nat, hi: nat, overlap: Option<(nat, nat)>,
                             prev: Option<(nat, nat)>, next: Option<(nat, nat)>)
      requires Canonical(m) && lo < hi && overlap.Some? && IsFirstOverlap(m, lo, hi, overlap.value.0)
      requires overlap == prev || overlap == next
      requires PrevAnswer(m, lo + 1, prev) && NextAnswer(m, lo, next)
      ensures overlap.value.0 in m && overlap.value.1 == m[overlap.value.0]
      ensures lo < overlap.value.0 + overlap.value.1 && overlap.value.0 < hi
      ensures CarveFirst(m, lo, hi) == Cut(m, overlap.value.0, lo, hi) != m
    {
      FirstOverlapUnique(m, lo, hi, overlap.value.0);
      CutChanges(m, overlap.value.0, lo, hi);
    }

    static lemma NothingToCarve(m: FreeMap, lo: nat, hi: nat)
      requires Canonical(m) && lo < hi && forall p :: !Overlaps(m, lo, hi, p)
      ensures CarveFirst(m, lo, hi) == m
    {
    }

    /** Applies one redo entry and reports whether it changed the state. */
    method ReplayRedo(op: RedoOp) returns (changed: bool)
      requires Valid()
      modifies this, freelist
      ensures Valid() && View() == Replay(cfg, old(View()), op)
      ensures changed <==> View() != old(View())
    {
      hide FreelistBackend.Valid, AlignReservation, WellFormed, ReplayAllocate, ReplayFree;
      ReplayKeeps(cfg, View(), op);
      changed := false;
      match op {
        case AllocateRegion(offset, size, id) =>
          if id == cfg.redoDeviceId {
            changed := ReplayAllocateEntry(offset, AlignReservation(cfg, size));
          }
        case FreeRegion(offset, size, id) =>
          if id == cfg.redoDeviceId {
            changed := ReplayFreeEntry(offset, AlignReservation(cfg, size));
          }
        case OtherOp =>
      }
    }

    method ReplayAllocateEntry(offset: nat, a: u64) returns (changed: bool)
      requires Valid() && WellFormed(cfg, ReplayAllocate(cfg, View(), offset, a))
      modifies this, freelist
      ensures Valid() && View() == ReplayAllocate(cfg, old(View()), offset, a)
      ensures changed <==> View() != old(View())
    {
      hide FreelistBackend.Valid, Bytes, CarveFirst, Canonical, Inside;
      var end := offset + a;
      if end >= U64_LIMIT || a == 0 || offset < DATA_REGION_OFFSET || end > cfg.deviceSize {
        return false;
      }
      var bumped := end > nextOffset;
      if bumped {
        nextOffset := end;
      }
      var carved := CarveAllocation(offset, a);
      changed := bumped || carved;
    }

    method ReplayFreeEntry(offset: nat, a: u64) returns (changed: bool)
      requires Valid() && WellFormed(cfg, ReplayFree(cfg, View(), offset, a))
      modifies this, freelist
      ensures Valid() && View() == ReplayFree(cfg, old(View()), offset, a)
      ensures changed <==> View() != old(View())
    {
      hide FreelistBackend.Valid, Bytes, Canonical, AddRange, NextAnswer, PrevAnswer, Inside;
      if a == 0 || offset + a >= U64_LIMIT {
        return false;
      }
      var end := offset + a;
      var prev := freelist.PrevBefore(offset + 1);
      PrevContains(freelist.view, offset, end, prev);
      PrevDecides(freelist.view, offset, prev);
      InRange(offset, a, offset);
      if prev.Some? && prev.value.0 + prev.value.1 >= end {
        return false;
      }
      if offset < DATA_REGION_OFFSET || end > cfg.deviceSize {
        return false;
      }
      if prev.Some? && prev.value.0 + prev.value.1 > offset {
        return false;
      }
      var next := freelist.NextFrom(offset);
      NeighboursDecide(freelist.view, offset, end, next);
      if next.Some? && next.value.0 < end {
        return false;
      }
      AddRangeChanges(freelist.view, offset, a);
      var finalOffset, finalSize := CoalesceAdjacent(offset, a);
      freelist.Insert(finalOffset, finalSize);
      freelist.MaybePromote();
      changed := true;
    }

    static lemma NotReclaimable(c: Config, s: State, offset: nat, a: nat, held: Option<(nat, nat)>)
      requires ValidConfig(c) && WellFormed(c, s) && a > 0
      requires held.Some? <==> offset in Bytes(s.free)
      requires held.Some? ==> held.value.0 in s.free && held.value.1 == s.free[held.value.0]
      requires held.Some? ==> held.value.0 <= offset < held.value.0 + held.value.1
      requires held.None? || offset + a > held.value.0 + held.value.1 || offset + a >= U64_LIMIT
      ensures !Reclaimable(s, offset, a)
    {
      InRange(offset, a, offset);
      if Reclaimable(s, offset, a) {
        var o := CoveredByOne(s.free, offset, a);
      }
    }

    /** Takes a record that turned out to be live back out of the free region that holds it. */
    method ReserveRecoveredLiveRegion(offset: nat, size: u64) returns (carved: bool)
      requires Valid()
      modifies this, freelist
      ensures Valid() && View() == Reclaim(cfg, old(View()), offset, AlignReservation(cfg, size))
      ensures carved <==> Reclaimable(old(View()), offset, AlignReservation(cfg, size))
    {
      hide FreelistBackend.Valid, AlignReservation, Bytes, PrevAnswer, Canonical, Reclaim, Inside;
      ghost var before := View();
      var a := AlignReservation(cfg, size);
      var end := offset + a;
      if a == 0 {
        ReclaimKeeps(cfg, before, offset, a);
        return false;
      }
      var held := FreeRegionContaining(offset);
      InRange(offset, a, offset);
      if held.None? || end > held.value.0 + held.value.1 || end >= U64_LIMIT {
        NotReclaimable(cfg, before, offset, a, held);
        ReclaimKeeps(cfg, before, offset, a);
        return false;
      }
      ReclaimIs(cfg, before, offset, a, held.value.0);
      CarveAt(offset, end, held.value.0, held.value.1);
      freelist.MaybeDemote();
      carved := true;
    }

    /** The range lies below the high-water mark and touches no free region. */
    method IsAllocatedRange(offset: nat, size: u64) returns (r: bool)
      requires Valid()
      ensures var a := AlignReservation(cfg, size);
              r <==> InData(cfg, offset, a) && offset + a <= nextOffset && Range(offset, a) !! Bytes(freelist.view)
    {
      hide FreelistBackend.Valid, AlignReservation, Bytes, Canonical;
      var a := AlignReservation(cfg, size);
      if offset + a >= U64_LIMIT {
        return false;
      }
      var end := offset + a;
      if a == 0 || offset < DATA_REGION_OFFSET || end > nextOffset || end > cfg.deviceSize {
        return false;
      }
      var v := freelist.InOffsetOrder();
      DisjointRange(freelist.view, offset, a);
      for i := 0 to |v|
        invariant forall k :: 0 <= k < i ==> v[k].offset + v[k].size <= offset || end <= v[k].offset
      {
        if v[i].offset < end && v[i].offset + v[i].size > offset {
          return false;
        }
      }
      forall o | o in freelist.view
        ensures o + freelist.view[o] <= offset || end <= o
      {
        assert Holds(v, o);
      }
      r := true;
    }

    /** The sum and the maximum of the sizes. */
    static method Totals(v: seq<FreeRegion>) returns (total: nat, largest: nat)
      ensures total == SumSizes(v)
      ensures forall k :: 0 <= k < |v| ==> v[k].size <= largest
      ensures largest == 0 || exists k :: 0 <= k < |v| && v[k].size == largest
    {
      total, largest := 0, 0;
      for i := 0 to |v|
        invariant total == SumSizes(v[..i])
        invariant forall k :: 0 <= k < i ==> v[k].size <= largest
        invariant largest == 0 || exists k :: 0 <= k < i && v[k].size == largest
      {
        assert v[..i + 1][..i] == v[..i];
        total := total + v[i].size;
        if v[i].size > largest {
          largest := v[i].size;
        }
      }
      assert v[..|v|] == v;
    }

    /** Free bytes, largest region and bytes in use, from one walk over the freelist. */
    method Stats() returns (count: nat, totalFree: nat, largest: nat, used: nat)
      requires Valid()
      ensures count == |freelist.view|
      ensures totalFree == |Bytes(freelist.view)|
      ensures IsLargest(freelist.view, largest)
      ensures used == if nextOffset - DATA_REGION_OFFSET >= totalFree
                      then nextOffset - DATA_REGION_OFFSET - totalFree else 0
    {
      hide FreelistBackend.Valid, Bytes, SumSizes;
      count := freelist.Len();
      var v := freelist.InOffsetOrder();
      totalFree, largest := Totals(v);
      SumIsBytes(v, freelist.view);
      forall o | o in freelist.view ensures freelist.view[o] <= largest { assert Holds(v, o); }
      var highWater := nextOffset - DATA_REGION_OFFSET;
      used := if highWater >= totalFree then highWater - totalFree else 0;
    }
  }
}
