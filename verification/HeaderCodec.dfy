/** The allocator header on the device: layout, encoder, decoder and what survives the round trip.

    The checksum is a parameter: nothing here depends on which one is used.
 */
module HeaderCodec {
  import opened Prelude
  import opened Rounding
  import opened Regions
  import opened Freelist
  import opened AllocatorSpec
  import opened Device

  const MAGIC: nat := 0x5445_5241_414C_4C43
  const HEADER_VERSION: nat := 1
  const HEADER_VERSION_PACKED: nat := 2
  const HEADER_CRC_OFFSET: nat := 44
  const FREELIST_OFFSET: nat := 48
  const ENTRY_SIZE: nat := 16
  const MAX_PERSISTED_FREE_REGIONS: nat := 65533
  const ID_SIZE: nat := 16

  type Checksum = seq<byte> -> u32

  type u32 = x: nat | x < 0x1_0000_0000

  datatype Header = Header(next: nat, deviceId: seq<byte>, packed: bool, entries: seq<FreeRegion>)

  datatype HeaderError =
    | DeviceFailure
    | NoPersistedState
    | CorruptedHeader
    | UnsupportedVersion(version: nat)
    | HeaderCorruption(expected: nat, actual: nat)

  // ----- little-endian numbers -----

  function LittleEndian(n: nat, width: nat): (b: seq<byte>)
    ensures |b| == width
  {
    if width == 0 then [] else [n % 256] + LittleEndian(n / 256, width - 1)
  }

  function FromLittleEndian(b: seq<byte>): nat {
    if b == [] then 0 else b[0] + 256 * FromLittleEndian(b[1..])
  }

  /** `n` needs at most `width` bytes. */
  predicate FitsIn(n: nat, width: nat) {
    if width == 0 then n == 0 else FitsIn(n / 256, width - 1)
  }

  lemma {:induction false} LittleEndianRoundTrip(n: nat, width: nat)
    requires FitsIn(n, width)
    ensures FromLittleEndian(LittleEndian(n, width)) == n
  {
    if width > 0 {
      LittleEndianRoundTrip(n / 256, width - 1);
      assert LittleEndian(n, width)[1..] == LittleEndian(n / 256, width - 1);
    }
  }

  lemma U64Fits(n: nat)
    requires n < U64_LIMIT
    ensures FitsIn(n, 8)
  {
    var a := n / 256;
    var b := a / 256;
    var c := b / 256;
    U32Fits(c / 256);
    assert FitsIn(c / 256, 4);
    assert FitsIn(c, 5);
    assert FitsIn(b, 6);
    assert FitsIn(a, 7);
  }

  lemma U32Fits(n: nat)
    requires n < 0x1_0000_0000
    ensures FitsIn(n, 4)
  {
    var a := n / 256;
    var b := a / 256;
    var c := b / 256;
    assert FitsIn(c / 256, 0);
    assert FitsIn(c, 1);
    assert FitsIn(b, 2);
    assert FitsIn(a, 3);
  }

  // ----- encoding -----

  function EntryBytes(v: seq<FreeRegion>): (b: seq<byte>)
    ensures |b| == ENTRY_SIZE * |v|
  {
    if v == [] then []
    else
      var n := |v| - 1;
      EntryBytes(v[..n]) + LittleEndian(v[n].offset, 8) + LittleEndian(v[n].size, 8)
  }

  function Version(h: Header): nat {
    if h.packed then HEADER_VERSION_PACKED else HEADER_VERSION
  }

  /** Everything before the checksum slot. */
  function Fixed(h: Header): (b: seq<byte>)
    requires |h.deviceId| == ID_SIZE
    ensures |b| == HEADER_CRC_OFFSET
  {
    LittleEndian(MAGIC, 8) + LittleEndian(h.next, 8) + LittleEndian(|h.entries|, 8) +
    h.deviceId + LittleEndian(Version(h), 4)
  }

  function Covered(h: Header, slot: seq<byte>): (b: seq<byte>)
    requires |h.deviceId| == ID_SIZE && |slot| == 4
    ensures |b| == FREELIST_OFFSET + ENTRY_SIZE * |h.entries|
  {
    Fixed(h) + slot + EntryBytes(h.entries)
  }

  const NO_CRC: seq<byte> := [0, 0, 0, 0]

  /** The header bytes: the checksum is taken with its own slot zeroed, then stored there. */
  function Encode(h: Header, crc: Checksum): (b: seq<byte>)
    requires |h.deviceId| == ID_SIZE
    ensures |b| == FREELIST_OFFSET + ENTRY_SIZE * |h.entries|
  {
    Covered(h, LittleEndian(crc(Covered(h, NO_CRC)), 4))
  }

  /** Fields that fit their 64-bit slots and a freelist that fits the header region. */
  ghost predicate Encodable(h: Header) {
    && |h.deviceId| == ID_SIZE && h.next < U64_LIMIT
    && |h.entries| <= MAX_PERSISTED_FREE_REGIONS
    && forall i :: 0 <= i < |h.entries| ==> h.entries[i].offset < U64_LIMIT && h.entries[i].size < U64_LIMIT
  }

  // ----- decoding -----

  function U64At(d: seq<byte>, at: nat): nat
    requires at + 8 <= |d|
  {
    FromLittleEndian(d[at..at + 8])
  }

  function U32At(d: seq<byte>, at: nat): nat
    requires at + 4 <= |d|
  {
    FromLittleEndian(d[at..at + 4])
  }

  function DecodeEntries(d: seq<byte>, count: nat): (v: seq<FreeRegion>)
    requires FREELIST_OFFSET + ENTRY_SIZE * count <= |d|
    ensures |v| == count
  {
    if count == 0 then []
    else
      var base := FREELIST_OFFSET + ENTRY_SIZE * (count - 1);
      DecodeEntries(d, count - 1) + [FreeRegion(U64At(d, base), U64At(d, base + 8))]
  }

  /** The header's bytes as hashed: up to `end`, with the checksum slot zeroed. */
  function ForChecksum(d: seq<byte>, end: nat): seq<byte>
    requires FREELIST_OFFSET <= end <= |d|
  {
    d[..HEADER_CRC_OFFSET] + NO_CRC + d[FREELIST_OFFSET..end]
  }

  /** Reads the header of a device holding `d`. Every check is made before the value it guards is used. */
  function Decode(d: seq<byte>, alignment: nat, crc: Checksum): Result<Header, HeaderError>
    requires alignment >= FREELIST_OFFSET
  {
    if |d| < alignment then Err(DeviceFailure)
    else if U64At(d, 0) != MAGIC then
      if forall i :: 0 <= i < alignment ==> d[i] == 0 then Err(NoPersistedState) else Err(CorruptedHeader)
    else
      var version := U32At(d, 40);
      if version != HEADER_VERSION && version != HEADER_VERSION_PACKED then Err(UnsupportedVersion(version))
      else
        var count := U64At(d, 16);
        var end := FREELIST_OFFSET + ENTRY_SIZE * count;
        if count > MAX_PERSISTED_FREE_REGIONS then Err(CorruptedHeader)
        else if |d| < RoundUp(end, alignment) || |d| < end then Err(DeviceFailure)
        else
          var stored, actual := U32At(d, HEADER_CRC_OFFSET), crc(ForChecksum(d, end));
          if actual != stored then Err(HeaderCorruption(stored, actual))
          else Ok(Header(U64At(d, 8), d[24..40], version == HEADER_VERSION_PACKED, DecodeEntries(d, count)))
  }

  // ----- the round trip -----

  lemma FixedFields(h: Header, d: seq<byte>)
    requires Encodable(h) && Fixed(h) <= d
    ensures U64At(d, 0) == MAGIC && U64At(d, 8) == h.next && U64At(d, 16) == |h.entries|
    ensures d[24..40] == h.deviceId && U32At(d, 40) == Version(h)
  {
    hide LittleEndian, FromLittleEndian, FitsIn, Fixed;
    var f := Fixed(h);
    U64Fits(MAGIC);
    U64Fits(h.next);
    U64Fits(|h.entries|);
    U32Fits(Version(h));
    LittleEndianRoundTrip(MAGIC, 8);
    LittleEndianRoundTrip(h.next, 8);
    LittleEndianRoundTrip(|h.entries|, 8);
    LittleEndianRoundTrip(Version(h), 4);
    FixedSlices(h);
    assert d[0..8] == f[0..8] && d[8..16] == f[8..16] && d[16..24] == f[16..24];
    assert d[24..40] == f[24..40] && d[40..44] == f[40..44];
  }

  lemma FixedSlices(h: Header)
    requires |h.deviceId| == ID_SIZE
    ensures var f := Fixed(h);
            && f[0..8] == LittleEndian(MAGIC, 8)
            && f[8..16] == LittleEndian(h.next, 8)
            && f[16..24] == LittleEndian(|h.entries|, 8)
            && f[24..40] == h.deviceId
            && f[40..44] == LittleEndian(Version(h), 4)
  {
    hide LittleEndian;
    var v := LittleEndian(Version(h), 4);
    assert Fixed(h)[40..44] == v;
  }

  /** Entry `i` sits at its own 16-byte slot. */
  lemma {:induction false} EntrySlice(v: seq<FreeRegion>, i: nat)
    requires i < |v|
    ensures var b := EntryBytes(v);
            && b[ENTRY_SIZE * i..ENTRY_SIZE * i + 8] == LittleEndian(v[i].offset, 8)
            && b[ENTRY_SIZE * i + 8..ENTRY_SIZE * i + 16] == LittleEndian(v[i].size, 8)
    decreases |v|
  {
    hide LittleEndian;
    var n := |v| - 1;
    if i < n { EntrySlice(v[..n], i); }
  }

  lemma {:induction false} DecodeEntriesRoundTrip(h: Header, d: seq<byte>, count: nat)
    requires Encodable(h) && count <= |h.entries|
    requires FREELIST_OFFSET + ENTRY_SIZE * |h.entries| <= |d|
    requires d[FREELIST_OFFSET..FREELIST_OFFSET + ENTRY_SIZE * |h.entries|] == EntryBytes(h.entries)
    ensures DecodeEntries(d, count) == h.entries[..count]
  {
    if count > 0 {
      var i := count - 1;
      DecodeEntriesRoundTrip(h, d, i);
      DecodeEntry(h, d, i);
      assert h.entries[..count] == h.entries[..i] + [h.entries[i]];
    }
  }

  lemma PartOfPart(d: seq<byte>, from: nat, len: nat, at: nat, n: nat)
    requires from + len <= |d| && at + n <= len
    ensures d[from + at..from + at + n] == d[from..from + len][at..at + n]
  {
    var l, r := d[from + at..from + at + n], d[from..from + len][at..at + n];
    forall i | 0 <= i < |l| ensures l[i] == r[i] {
      assert d[from..from + len][at + i] == d[from + (at + i)];
    }
  }

  lemma DecodeEntry(h: Header, d: seq<byte>, i: nat)
    requires Encodable(h) && i < |h.entries|
    requires FREELIST_OFFSET + ENTRY_SIZE * |h.entries| <= |d|
    requires d[FREELIST_OFFSET..FREELIST_OFFSET + ENTRY_SIZE * |h.entries|] == EntryBytes(h.entries)
    ensures var base := FREELIST_OFFSET + ENTRY_SIZE * i;
            U64At(d, base) == h.entries[i].offset && U64At(d, base + 8) == h.entries[i].size
  {
    hide LittleEndian, FromLittleEndian, EntryBytes, FitsIn;
    var base := FREELIST_OFFSET + ENTRY_SIZE * i;
    var b := EntryBytes(h.entries);
    EntrySlice(h.entries, i);
    PartOfPart(d, FREELIST_OFFSET, ENTRY_SIZE * |h.entries|, ENTRY_SIZE * i, 8);
    PartOfPart(d, FREELIST_OFFSET, ENTRY_SIZE * |h.entries|, ENTRY_SIZE * i + 8, 8);
    U64Fits(h.entries[i].offset);
    U64Fits(h.entries[i].size);
    LittleEndianRoundTrip(h.entries[i].offset, 8);
    LittleEndianRoundTrip(h.entries[i].size, 8);
  }

  /** Whatever follows the header on the device, decoding gives back the header that was encoded. */
  lemma DecodeEncode(h: Header, d: seq<byte>, alignment: nat, crc: Checksum)
    requires Encodable(h) && alignment >= FREELIST_OFFSET
    requires Encode(h, crc) <= d && |d| >= RoundUp(|Encode(h, crc)|, alignment)
    ensures Decode(d, alignment, crc) == Ok(h)
  {
    hide LittleEndian, FromLittleEndian, EntryBytes, FitsIn, DecodeEntries, Fixed;
    var end := FREELIST_OFFSET + ENTRY_SIZE * |h.entries|;
    var sum := crc(Covered(h, NO_CRC));
    var slot := LittleEndian(sum, 4);
    RoundUpBounds(end, alignment);
    RoundUpPositive(end, alignment);
    assert d[..end] == Fixed(h) + slot + EntryBytes(h.entries);
    assert d[..HEADER_CRC_OFFSET] == Fixed(h);
    FixedFields(h, d);
    assert d[HEADER_CRC_OFFSET..FREELIST_OFFSET] == slot;
    U32Fits(sum);
    LittleEndianRoundTrip(sum, 4);
    assert d[FREELIST_OFFSET..end] == EntryBytes(h.entries);
    DecodeEntriesRoundTrip(h, d, |h.entries|);
    assert h.entries[..|h.entries|] == h.entries;
    assert ForChecksum(d, end) == Covered(h, NO_CRC);
  }

  // ----- what the decoder accepts -----

  lemma {:induction false} FromBytesRoundTrip(b: seq<byte>)
    ensures FitsIn(FromLittleEndian(b), |b|) && LittleEndian(FromLittleEndian(b), |b|) == b
  {
    if b != [] {
      FromBytesRoundTrip(b[1..]);
      assert FromLittleEndian(b) / 256 == FromLittleEndian(b[1..]);
    }
  }

  lemma FitsU64(n: nat)
    requires FitsIn(n, 8)
    ensures n < U64_LIMIT
  {
    var a := n / 256;
    var b := a / 256;
    var c := b / 256;
    assert FitsIn(a, 7) && FitsIn(b, 6) && FitsIn(c, 5) && FitsIn(c / 256, 4);
    FitsU32(c / 256);
  }

  lemma FitsU32(n: nat)
    requires FitsIn(n, 4)
    ensures n < 0x1_0000_0000
  {
    var a := n / 256;
    var b := a / 256;
    var c := b / 256;
    assert FitsIn(a, 3) && FitsIn(b, 2) && FitsIn(c, 1) && FitsIn(c / 256, 0);
  }

  lemma U64Bytes(d: seq<byte>, at: nat)
    requires at + 8 <= |d|
    ensures U64At(d, at) < U64_LIMIT && LittleEndian(U64At(d, at), 8) == d[at..at + 8]
  {
    hide FitsIn, FromLittleEndian, LittleEndian;
    FromBytesRoundTrip(d[at..at + 8]);
    FitsU64(U64At(d, at));
  }

  lemma U32Bytes(d: seq<byte>, at: nat)
    requires at + 4 <= |d|
    ensures U32At(d, at) < 0x1_0000_0000 && LittleEndian(U32At(d, at), 4) == d[at..at + 4]
  {
    hide FitsIn, FromLittleEndian, LittleEndian;
    FromBytesRoundTrip(d[at..at + 4]);
    FitsU32(U32At(d, at));
  }

  /** Decoded entries encode to the bytes they came from. */
  lemma {:induction false} EntriesBack(d: seq<byte>, count: nat)
    requires FREELIST_OFFSET + ENTRY_SIZE * count <= |d|
    ensures EntryBytes(DecodeEntries(d, count)) == d[FREELIST_OFFSET..FREELIST_OFFSET + ENTRY_SIZE * count]
    ensures forall i :: 0 <= i < count ==>
              DecodeEntries(d, count)[i].offset < U64_LIMIT && DecodeEntries(d, count)[i].size < U64_LIMIT
  {
    hide LittleEndian, FromLittleEndian, EntryBytes, U64At;
    if count == 0 {
      NoEntries(d);
    } else {
      var base := FREELIST_OFFSET + ENTRY_SIZE * (count - 1);
      EntriesBack(d, count - 1);
      U64Bytes(d, base);
      U64Bytes(d, base + 8);
      EntrySnoc(DecodeEntries(d, count - 1), FreeRegion(U64At(d, base), U64At(d, base + 8)));
      ThreeParts(d, FREELIST_OFFSET, base);
    }
  }

  lemma NoEntries(d: seq<byte>)
    requires FREELIST_OFFSET <= |d|
    ensures EntryBytes([]) == [] == d[FREELIST_OFFSET..FREELIST_OFFSET]
  {
  }

  lemma EntrySnoc(v: seq<FreeRegion>, r: FreeRegion)
    ensures EntryBytes(v + [r]) == EntryBytes(v) + LittleEndian(r.offset, 8) + LittleEndian(r.size, 8)
  {
    hide LittleEndian;
    assert (v + [r])[..|v|] == v;
  }

  lemma ThreeParts(d: seq<byte>, from: nat, base: nat)
    requires from <= base && base + 16 <= |d|
    ensures d[from..base + 16] == d[from..base] + d[base..base + 8] + d[base + 8..base + 16]
  {
  }

  /** A decoded header encodes to the bytes it came from, stored checksum included. */
  lemma EncodeDecode(d: seq<byte>, alignment: nat, crc: Checksum)
    requires alignment >= FREELIST_OFFSET && Decode(d, alignment, crc).Ok?
    ensures var h := Decode(d, alignment, crc).value;
            Encodable(h) && Encode(h, crc) <= d && RoundUp(|Encode(h, crc)|, alignment) <= |d|
  {
    hide LittleEndian, FromLittleEndian, EntryBytes, FitsIn, DecodeEntries, RoundUp;
    var h, count := Decode(d, alignment, crc).value, U64At(d, 16);
    var end := FREELIST_OFFSET + ENTRY_SIZE * count;
    U64Bytes(d, 0);
    U64Bytes(d, 8);
    U64Bytes(d, 16);
    U32Bytes(d, 40);
    U32Bytes(d, HEADER_CRC_OFFSET);
    EntriesBack(d, count);
    FixedBack(d, h);
    assert ForChecksum(d, end) == Covered(h, NO_CRC);
    assert d[..end] == d[..HEADER_CRC_OFFSET] + d[HEADER_CRC_OFFSET..FREELIST_OFFSET] + d[FREELIST_OFFSET..end];
  }

  lemma FixedBack(d: seq<byte>, h: Header)
    requires |d| >= FREELIST_OFFSET && h.deviceId == d[24..40]
    requires LittleEndian(MAGIC, 8) == d[0..8] && LittleEndian(h.next, 8) == d[8..16]
    requires LittleEndian(|h.entries|, 8) == d[16..24] && LittleEndian(Version(h), 4) == d[40..44]
    ensures Fixed(h) == d[..HEADER_CRC_OFFSET]
  {
    hide LittleEndian;
    assert d[..44] == d[0..8] + d[8..16] + d[16..24] + d[24..40] + d[40..44];
  }

  /** Exactly: a device opens with header `h` if and only if it starts with the encoding of `h`, checksum included, and
      holds the header's last block whole. */
  lemma DecodeExact(h: Header, d: seq<byte>, alignment: nat, crc: Checksum)
    requires alignment >= FREELIST_OFFSET
    ensures Decode(d, alignment, crc) == Ok(h) <==>
              Encodable(h) && Encode(h, crc) <= d && RoundUp(|Encode(h, crc)|, alignment) <= |d|
  {
    hide Decode, Encode, RoundUp;
    if Decode(d, alignment, crc) == Ok(h) { EncodeDecode(d, alignment, crc); }
    if Encodable(h) && Encode(h, crc) <= d && RoundUp(|Encode(h, crc)|, alignment) <= |d| {
      DecodeEncode(h, d, alignment, crc);
    }
  }

  /** The number of header bytes the stored region count calls for. */
  function Extent(d: seq<byte>): nat
    requires |d| >= FREELIST_OFFSET
  {
    FREELIST_OFFSET + ENTRY_SIZE * U64At(d, 16)
  }

  /** The stored checksum is that of the header with the checksum's own bytes zeroed. */
  ghost predicate Intact(d: seq<byte>, crc: Checksum)
    requires FREELIST_OFFSET <= |d| && Extent(d) <= |d|
  {
    FromLittleEndian(d[44..48]) == crc(Splice(d[..Extent(d)], 44, [0, 0, 0, 0]))
  }

  /** Field by field: what makes a header acceptable. */
  lemma DecodeAccepts(d: seq<byte>, alignment: nat, crc: Checksum)
    requires alignment >= FREELIST_OFFSET
    ensures Decode(d, alignment, crc).Ok? <==>
              && |d| >= FREELIST_OFFSET && FromLittleEndian(d[0..8]) == MAGIC
              && FromLittleEndian(d[40..44]) in {HEADER_VERSION, HEADER_VERSION_PACKED}
              && U64At(d, 16) <= MAX_PERSISTED_FREE_REGIONS && RoundUp(Extent(d), alignment) <= |d|
              && Extent(d) <= |d| && Intact(d, crc)
  {
    hide LittleEndian, FromLittleEndian, DecodeEntries, RoundUp;
    if |d| >= FREELIST_OFFSET {
      RoundUpBounds(Extent(d), alignment);
      RoundUpPositive(Extent(d), alignment);
      if Extent(d) <= |d| { assert Splice(d[..Extent(d)], 44, NO_CRC) == ForChecksum(d, Extent(d)); }
    }
  }

  /** Magic number and version of a header this code writes. */
  ghost predicate Recognised(d: seq<byte>, alignment: nat)
    requires alignment >= FREELIST_OFFSET
  {
    && |d| >= alignment && FromLittleEndian(d[0..8]) == MAGIC
    && FromLittleEndian(d[40..44]) in {HEADER_VERSION, HEADER_VERSION_PACKED}
  }

  /** Which refusal means what. */
  lemma DecodeRefuses(d: seq<byte>, alignment: nat, crc: Checksum, stored: nat, actual: nat)
    requires alignment >= FREELIST_OFFSET
    ensures Decode(d, alignment, crc) == Err(HeaderCorruption(stored, actual)) <==>
              && Recognised(d, alignment) && U64At(d, 16) <= MAX_PERSISTED_FREE_REGIONS
              && RoundUp(Extent(d), alignment) <= |d| && Extent(d) <= |d| && stored == FromLittleEndian(d[44..48])
              && actual == crc(Splice(d[..Extent(d)], 44, [0, 0, 0, 0])) && stored != actual
    ensures Decode(d, alignment, crc) == Err(UnsupportedVersion(stored)) <==>
              && |d| >= alignment && FromLittleEndian(d[0..8]) == MAGIC
              && stored == FromLittleEndian(d[40..44]) && !Recognised(d, alignment)
    ensures Decode(d, alignment, crc) == Err(CorruptedHeader) <==>
              || (|d| >= alignment && FromLittleEndian(d[0..8]) != MAGIC && exists i :: 0 <= i < alignment && d[i] != 0)
              || (Recognised(d, alignment) && U64At(d, 16) > MAX_PERSISTED_FREE_REGIONS)
  {
    hide FromLittleEndian, DecodeEntries, RoundUp;
    if |d| >= FREELIST_OFFSET && Extent(d) <= |d| {
      assert Splice(d[..Extent(d)], 44, NO_CRC) == ForChecksum(d, Extent(d));
    }
  }

  /** A header that kept its checksum but not the bytes it covers is refused, unless both have the same checksum. */
  lemma TamperedRefused(h: Header, d: seq<byte>, alignment: nat, crc: Checksum)
    requires Encodable(h) && alignment >= FREELIST_OFFSET
    requires |d| >= FREELIST_OFFSET && d[44..48] == Encode(h, crc)[44..48]
    requires Extent(d) <= |d| ==> crc(Splice(d[..Extent(d)], 44, [0, 0, 0, 0])) != crc(Covered(h, NO_CRC))
    ensures Decode(d, alignment, crc).Err?
  {
    hide LittleEndian, FromLittleEndian, Decode, Fixed, EntryBytes, FitsIn;
    DecodeAccepts(d, alignment, crc);
    var sum := crc(Covered(h, NO_CRC));
    assert Encode(h, crc)[44..48] == LittleEndian(sum, 4);
    U32Fits(sum);
    LittleEndianRoundTrip(sum, 4);
  }

  /** Where each field is stored. */
  lemma Layout(h: Header, crc: Checksum, i: nat)
    requires Encodable(h)
    ensures var b := Encode(h, crc);
            && FromLittleEndian(b[0..8]) == MAGIC && FromLittleEndian(b[8..16]) == h.next
            && FromLittleEndian(b[16..24]) == |h.entries| && b[24..40] == h.deviceId
            && FromLittleEndian(b[40..44]) == (if h.packed then 2 else 1)
            && FromLittleEndian(b[44..48]) == crc(Splice(b, 44, [0, 0, 0, 0]))
            && (i < |h.entries| ==>
                  && FromLittleEndian(b[48 + 16 * i..56 + 16 * i]) == h.entries[i].offset
                  && FromLittleEndian(b[56 + 16 * i..64 + 16 * i]) == h.entries[i].size)
  {
    hide LittleEndian, FromLittleEndian, Fixed, EntryBytes, FitsIn;
    var b, sum := Encode(h, crc), crc(Covered(h, NO_CRC));
    FixedFields(h, b);
    U32Fits(sum);
    LittleEndianRoundTrip(sum, 4);
    assert b[44..48] == LittleEndian(sum, 4);
    assert Splice(b, 44, NO_CRC) == Covered(h, NO_CRC);
    if i < |h.entries| {
      assert b[FREELIST_OFFSET..FREELIST_OFFSET + ENTRY_SIZE * |h.entries|] == EntryBytes(h.entries);
      DecodeEntry(h, b, i);
    }
  }

  /** The header is padded with zeros to the least whole number of blocks. */
  lemma PaddedZero(e: seq<byte>, alignment: nat, n: nat)
    requires alignment > 0
    ensures var b := Padded(e, alignment);
            && e <= b && |b| % alignment == 0 && (n % alignment == 0 && |e| <= n ==> |b| <= n)
            && forall i :: |e| <= i < |b| ==> b[i] == 0
  {
    RoundUpBounds(|e|, alignment);
    if n % alignment == 0 && |e| <= n { RoundUpLeast(|e|, n, alignment); }
  }

  lemma RoundUpPositive(x: nat, d: nat)
    requires d > 0 && x > 0
    ensures RoundUp(x, d) >= d
  {
    RoundUpBounds(x, d);
    if RoundUp(x, d) < d { CloseMultiples(0, RoundUp(x, d), d); }
  }

  /** The padded header stays below the data region for every persistable count exactly when the
      alignment divides the region's size. */
  lemma HeaderFits(alignment: nat)
    requires alignment > 0
    ensures (forall count: nat :: count <= MAX_PERSISTED_FREE_REGIONS ==>
               RoundUp(FREELIST_OFFSET + ENTRY_SIZE * count, alignment) <= DATA_REGION_OFFSET)
            <==> DATA_REGION_OFFSET % alignment == 0
  {
    if DATA_REGION_OFFSET % alignment == 0 {
      forall count: nat | count <= MAX_PERSISTED_FREE_REGIONS
        ensures RoundUp(FREELIST_OFFSET + ENTRY_SIZE * count, alignment) <= DATA_REGION_OFFSET
      {
        RoundUpLeast(FREELIST_OFFSET + ENTRY_SIZE * count, DATA_REGION_OFFSET, alignment);
      }
    } else {
      var full := FREELIST_OFFSET + ENTRY_SIZE * MAX_PERSISTED_FREE_REGIONS;
      assert full == DATA_REGION_OFFSET;
      RoundUpBounds(full, alignment);
    }
  }

  /** Only a device whose first block is all zeros counts as fresh; everything else fails closed. */
  lemma {:induction false} FreshMeansZero(d: seq<byte>, alignment: nat, crc: Checksum)
    requires alignment >= FREELIST_OFFSET
    ensures Decode(d, alignment, crc) == Err(NoPersistedState) <==>
            |d| >= alignment && forall i :: 0 <= i < alignment ==> d[i] == 0
  {
    if |d| >= alignment && forall i :: 0 <= i < alignment ==> d[i] == 0 {
      ZerosDecode(d[0..8]);
    }
  }

  lemma {:induction false} ZerosDecode(b: seq<byte>)
    requires forall i :: 0 <= i < |b| ==> b[i] == 0
    ensures FromLittleEndian(b) == 0
  {
    if b != [] { ZerosDecode(b[1..]); }
  }

  /** Decoding looks no further than the header itself. */
  lemma {:induction false} DecodeEntriesPrefix(p: seq<byte>, d: seq<byte>, count: nat)
    requires p <= d && FREELIST_OFFSET + ENTRY_SIZE * count <= |p|
    ensures DecodeEntries(p, count) == DecodeEntries(d, count)
  {
    if count > 0 {
      DecodeEntriesPrefix(p, d, count - 1);
      var base := FREELIST_OFFSET + ENTRY_SIZE * (count - 1);
      assert p[base..base + 8] == d[base..base + 8] && p[base + 8..base + 16] == d[base + 8..base + 16];
    }
  }

  /** The decoder reads nothing beyond the header region. */
  lemma DecodeLocal(d: seq<byte>, d': seq<byte>, alignment: nat, crc: Checksum)
    requires alignment >= FREELIST_OFFSET && DATA_REGION_OFFSET % alignment == 0
    requires |d| == |d'| >= DATA_REGION_OFFSET && d[..DATA_REGION_OFFSET] == d'[..DATA_REGION_OFFSET]
    ensures Decode(d, alignment, crc) == Decode(d', alignment, crc)
  {
    hide RoundUp, FromLittleEndian, DecodeEntries;
    HeaderFits(alignment);
    var p := d[..DATA_REGION_OFFSET];
    SameAt(p, d);
    SameAt(p, d');
    var count := U64At(d, 16);
    if count <= MAX_PERSISTED_FREE_REGIONS {
      var end := FREELIST_OFFSET + ENTRY_SIZE * count;
      assert end <= DATA_REGION_OFFSET;
      DecodeEntriesPrefix(p, d, count);
      DecodeEntriesPrefix(p, d', count);
      assert d[FREELIST_OFFSET..end] == p[FREELIST_OFFSET..end] == d'[FREELIST_OFFSET..end];
    }
    assert alignment <= DATA_REGION_OFFSET;
    forall i | 0 <= i < alignment ensures d[i] == d'[i] { assert d[i] == p[i] && d'[i] == p[i]; }
  }

  lemma SameAt(p: seq<byte>, d: seq<byte>)
    requires |p| >= FREELIST_OFFSET && p <= d
    ensures U64At(p, 0) == U64At(d, 0) && U64At(p, 8) == U64At(d, 8) && U64At(p, 16) == U64At(d, 16)
    ensures U32At(p, 40) == U32At(d, 40) && U32At(p, HEADER_CRC_OFFSET) == U32At(d, HEADER_CRC_OFFSET)
    ensures p[24..40] == d[24..40] && p[..HEADER_CRC_OFFSET] == d[..HEADER_CRC_OFFSET]
  {
    assert p[0..8] == d[0..8] && p[8..16] == d[8..16] && p[16..24] == d[16..24];
    assert p[40..44] == d[40..44] && p[44..48] == d[44..48];
  }

  // ----- the encoder as the code runs it -----

  function Zeros(n: nat): (z: seq<byte>)
    ensures |z| == n
  {
    seq(n, _ => 0)
  }

  /** A header with the magic number but no version is refused. */
  lemma MagicOnly(d: seq<byte>, alignment: nat, crc: Checksum)
    requires alignment >= FREELIST_OFFSET && |d| >= alignment
    requires d[0..8] == LittleEndian(MAGIC, 8) && d[40..44] == Zeros(4)
    ensures Decode(d, alignment, crc) == Err(UnsupportedVersion(0))
  {
    hide LittleEndian, RoundUp;
    U64Fits(MAGIC);
    LittleEndianRoundTrip(MAGIC, 8);
    ZerosDecode(d[40..44]);
  }

  /** `b` followed by zeros up to a whole number of device blocks. */
  function Padded(b: seq<byte>, alignment: nat): seq<byte>
    requires alignment > 0
  {
    RoundUpBounds(|b|, alignment);
    b + Zeros(RoundUp(|b|, alignment) - |b|)
  }

  /** `prefix` followed by zeros. */
  ghost predicate Filled(b: seq<byte>, prefix: seq<byte>) {
    |prefix| <= |b| && b == prefix + Zeros(|b| - |prefix|)
  }

  /** Copies `b` into the buffer behind what was filled so far. */
  method Put(buf: array<byte>, at: nat, b: seq<byte>, ghost prefix: seq<byte>)
    requires at == |prefix| && at + |b| <= buf.Length && Filled(buf[..], prefix)
    modifies buf
    ensures Filled(buf[..], prefix + b)
  {
    forall i | 0 <= i < |b| { buf[at + i] := b[i]; }
    assert buf[..] == old(buf[..])[..at] + b + old(buf[..])[at + |b|..];
  }

  /** Fills a zeroed block buffer field by field, then patches in the checksum of what it holds. */
  method BuildHeader(h: Header, alignment: nat, crc: Checksum) returns (buf: array<byte>)
    requires |h.deviceId| == ID_SIZE && alignment >= FREELIST_OFFSET
    ensures fresh(buf) && buf[..] == Padded(Encode(h, crc), alignment)
  {
    hide LittleEndian, RoundUp, EntryBytes, Filled;
    var end := FREELIST_OFFSET + ENTRY_SIZE * |h.entries|;
    RoundUpBounds(end, alignment);
    buf := new byte[RoundUp(end, alignment)](_ => 0);
    PutFixed(buf, h);
    PutEntries(buf, h.entries, Fixed(h) + NO_CRC);
    FilledCovered(h, buf[..]);
    ghost var b := buf[..];
    var sum := LittleEndian(crc(buf[..end]), 4);
    forall i | 0 <= i < 4 { buf[HEADER_CRC_OFFSET + i] := sum[i]; }
    PatchSlot(h, sum, b);
    assert buf[..] == b[..HEADER_CRC_OFFSET] + sum + b[FREELIST_OFFSET..];
  }

  method PutFixed(buf: array<byte>, h: Header)
    requires |h.deviceId| == ID_SIZE && FREELIST_OFFSET <= buf.Length
    requires forall i :: 0 <= i < buf.Length ==> buf[i] == 0
    modifies buf
    ensures Filled(buf[..], Fixed(h) + NO_CRC)
  {
    hide LittleEndian;
    assert Filled(buf[..], []);
    hide Filled;
    var magic, next, count := LittleEndian(MAGIC, 8), LittleEndian(h.next, 8), LittleEndian(|h.entries|, 8);
    var version := LittleEndian(Version(h), 4);
    Put(buf, 0, magic, []);
    assert [] + magic == magic;
    Put(buf, 8, next, magic);
    Put(buf, 16, count, magic + next);
    Put(buf, 24, h.deviceId, magic + next + count);
    Put(buf, 40, version, magic + next + count + h.deviceId);
    Put(buf, HEADER_CRC_OFFSET, NO_CRC, Fixed(h));
  }

  method PutEntries(buf: array<byte>, v: seq<FreeRegion>, ghost prefix: seq<byte>)
    requires |prefix| == FREELIST_OFFSET && FREELIST_OFFSET + ENTRY_SIZE * |v| <= buf.Length
    requires Filled(buf[..], prefix)
    modifies buf
    ensures Filled(buf[..], prefix + EntryBytes(v))
  {
    hide LittleEndian, Filled;
    assert prefix + EntryBytes(v[..0]) == prefix;
    for i := 0 to |v|
      invariant Filled(buf[..], prefix + EntryBytes(v[..i]))
    {
      var base := FREELIST_OFFSET + ENTRY_SIZE * i;
      var offset, size := LittleEndian(v[i].offset, 8), LittleEndian(v[i].size, 8);
      Put(buf, base, offset, prefix + EntryBytes(v[..i]));
      Put(buf, base + 8, size, prefix + EntryBytes(v[..i]) + offset);
      assert v[..i + 1][..i] == v[..i];
      assert prefix + EntryBytes(v[..i]) + offset + size == prefix + EntryBytes(v[..i + 1]);
    }
    assert v[..|v|] == v;
  }

  lemma FilledCovered(h: Header, b: seq<byte>)
    requires |h.deviceId| == ID_SIZE && Filled(b, Fixed(h) + NO_CRC + EntryBytes(h.entries))
    ensures var end := FREELIST_OFFSET + ENTRY_SIZE * |h.entries|;
            end <= |b| && b[..end] == Covered(h, NO_CRC) && b == Covered(h, NO_CRC) + Zeros(|b| - end)
  {
    hide EntryBytes, Fixed;
  }

  lemma PatchSlot(h: Header, slot: seq<byte>, b: seq<byte>)
    requires |h.deviceId| == ID_SIZE && |slot| == 4
    requires FREELIST_OFFSET + ENTRY_SIZE * |h.entries| <= |b|
    requires b == Covered(h, NO_CRC) + Zeros(|b| - FREELIST_OFFSET - ENTRY_SIZE * |h.entries|)
    ensures b[..HEADER_CRC_OFFSET] + slot + b[FREELIST_OFFSET..] ==
            Covered(h, slot) + Zeros(|b| - FREELIST_OFFSET - ENTRY_SIZE * |h.entries|)
  {
    hide EntryBytes, Fixed;
    assert Covered(h, NO_CRC)[..HEADER_CRC_OFFSET] == Fixed(h);
    assert Covered(h, NO_CRC)[FREELIST_OFFSET..] == EntryBytes(h.entries);
  }

  // ----- allocator states on the device -----

  ghost function HeaderOf(c: Config, s: State, id: seq<byte>): Header {
    Header(s.next, id, c.packed, SortedList(s.free))
  }

  /** The state a recovered header stands for. */
  ghost function FromHeader(h: Header): State {
    State(MapOf(h.entries), h.next)
  }

  /** The device contents after the header of `s` was stored on top of `d`. */
  ghost function WithHeader(d: seq<byte>, c: Config, s: State, id: seq<byte>, crc: Checksum): seq<byte>
    requires ValidConfig(c) && |id| == ID_SIZE
  {
    var b := Padded(Encode(HeaderOf(c, s, id), crc), c.alignment);
    if |b| <= |d| then Splice(d, 0, b) else d
  }

  ghost predicate Persistable(s: State) {
    |s.free| <= MAX_PERSISTED_FREE_REGIONS
  }

  lemma HeaderOfEncodable(c: Config, s: State, id: seq<byte>)
    requires ValidConfig(c) && WellFormed(c, s) && Persistable(s) && |id| == ID_SIZE
    ensures Encodable(HeaderOf(c, s, id))
    ensures FromHeader(HeaderOf(c, s, id)) == s
  {
    var v := SortedList(s.free);
    ListsSize(v, s.free);
    MapOfLists(v, s.free);
    forall i | 0 <= i < |v| ensures v[i].offset < U64_LIMIT && v[i].size < U64_LIMIT {
      assert v[i].offset in s.free;
    }
  }

  lemma HeaderBelowData(c: Config, s: State, id: seq<byte>, crc: Checksum)
    requires ValidConfig(c) && Persistable(s) && |id| == ID_SIZE
    ensures |Padded(Encode(HeaderOf(c, s, id), crc), c.alignment)| <= DATA_REGION_OFFSET
  {
    hide RoundUp, Encode, Lists;
    ListsSize(SortedList(s.free), s.free);
    HeaderFits(c.alignment);
    RoundUpBounds(|Encode(HeaderOf(c, s, id), crc)|, c.alignment);
  }

  /** A device that agrees with a splice at its start holds what was spliced there. */
  lemma HeadOf(d: seq<byte>, d': seq<byte>, b: seq<byte>, e: seq<byte>, n: nat)
    requires |e| <= |b| <= n <= |d| == |d'| && b[..|e|] == e
    requires d'[..n] == Splice(d, 0, b)[..n]
    ensures d'[..|e|] == e
  {
    assert Splice(d, 0, b)[..n][..|e|] == Splice(d, 0, b)[..|e|] == b[..|e|];
    assert d'[..n][..|e|] == d'[..|e|];
  }

  /** Recovering what was persisted gives back the same free map, high-water mark, identity and mode,
      whatever the device held before and whatever is later written to its data region. */
  lemma PersistRecover(c: Config, s: State, id: seq<byte>, crc: Checksum, d: seq<byte>, d': seq<byte>)
    requires ValidConfig(c) && WellFormed(c, s) && Persistable(s) && |id| == ID_SIZE
    requires |d| == |d'| == c.deviceSize >= DATA_REGION_OFFSET
    requires d'[..DATA_REGION_OFFSET] == WithHeader(d, c, s, id, crc)[..DATA_REGION_OFFSET]
    ensures Decode(d', c.alignment, crc) == Ok(HeaderOf(c, s, id))
    ensures FromHeader(HeaderOf(c, s, id)) == s
  {
    hide RoundUp, Encode, Decode, SortedList, MapOf;
    HeaderOfEncodable(c, s, id);
    HeaderBelowData(c, s, id, crc);
    var e := Encode(HeaderOf(c, s, id), crc);
    var b := Padded(e, c.alignment);
    RoundUpBounds(|e|, c.alignment);
    HeadOf(d, d', b, e, DATA_REGION_OFFSET);
    DecodeEncode(HeaderOf(c, s, id), d', c.alignment, crc);
  }
}
