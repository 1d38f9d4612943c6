/** Free-space regions as finite maps from offset to size, and the byte sets they denote.

    The allocator keeps its freelist disjoint, positive-sized and free of adjacent
    neighbours. Such a map is determined by the set of bytes it covers
    (CanonicalUnique), so every later result can be stated on byte sets.
 */
module Regions {

  type FreeMap = map<nat, nat>

  /** Byte `x` lies in [offset, offset + size). */
  predicate Covers(offset: nat, size: nat, x: nat) {
    offset <= x < offset + size
  }

  /** The byte addresses [offset, offset + size). */
  ghost function Range(offset: nat, size: nat): set<nat> {
    set x: nat | offset <= x < offset + size && Covers(offset, size, x)
  }

  /** Every byte covered by some region of `m`. */
  ghost function Bytes(m: FreeMap): set<nat> {
    set o, x | o in m && o <= x < o + m[o] && Covers(o, m[o], x) :: x
  }

  /** Positive sizes, and every region ends strictly before the next one starts. */
  ghost predicate Canonical(m: FreeMap) {
    && (forall o :: o in m ==> m[o] > 0)
    && (forall a, b :: a in m && b in m && a < b ==> a + m[a] < b)
  }

  ghost predicate Inside(m: FreeMap, lo: nat, hi: nat) {
    forall o :: o in m ==> lo <= o && o + m[o] <= hi
  }

  /** The region of `m` that covers byte `x`. */
  lemma Owner(m: FreeMap, x: nat) returns (o: nat)
    requires x in Bytes(m)
    ensures o in m && o <= x < o + m[o]
  {
    o :| o in m && o <= x < o + m[o] && Covers(o, m[o], x);
  }

  lemma Owned(m: FreeMap, o: nat, x: nat)
    requires o in m && o <= x < o + m[o]
    ensures x in Bytes(m)
  {
    assert Covers(o, m[o], x);
  }

  lemma InRange(offset: nat, size: nat, x: nat)
    requires offset <= x < offset + size
    ensures x in Range(offset, size)
  {
    assert Covers(offset, size, x);
  }

  /** A range disjoint from the free bytes meets no region. */
  lemma DisjointRange(m: FreeMap, offset: nat, size: nat)
    requires Canonical(m)
    ensures Range(offset, size) !! Bytes(m) <==>
            size == 0 || forall o :: o in m ==> o + m[o] <= offset || offset + size <= o
  {
    if Range(offset, size) !! Bytes(m) && size > 0 {
      forall o | o in m ensures o + m[o] <= offset || offset + size <= o {
        if o < offset + size && offset < o + m[o] {
          var x := if o < offset then offset else o;
          Owned(m, o, x);
          InRange(offset, size, x);
        }
      }
    }
  }

  /** A region of one canonical map starts at the same place in any map with the same bytes. */
  lemma CanonicalStart(m: FreeMap, m': FreeMap, o: nat)
    requires Canonical(m) && Canonical(m') && Bytes(m) == Bytes(m')
    requires o in m
    ensures o in m' && m'[o] >= m[o]
  {
    Owned(m, o, o);
    var o' := Owner(m', o);
    if o' < o {
      Owned(m', o', o - 1);
      assert false;
    }
    if m'[o] < m[o] {
      Owned(m, o, o + m'[o]);
      assert false;
    }
  }

  /** A canonical map is determined by its bytes. */
  lemma CanonicalUnique(m: FreeMap, m': FreeMap)
    requires Canonical(m) && Canonical(m') && Bytes(m) == Bytes(m')
    ensures m == m'
  {
    forall o | o in m ensures o in m' && m'[o] == m[o] {
      CanonicalStart(m, m', o);
      CanonicalStart(m', m, o);
    }
    forall o | o in m' ensures o in m {
      CanonicalStart(m', m, o);
    }
  }

  /** A non-empty range covered by a canonical map lies inside a single region. */
  lemma CoveredByOne(m: FreeMap, offset: nat, size: nat) returns (o: nat)
    requires Canonical(m) && size > 0 && Range(offset, size) <= Bytes(m)
    ensures o in m && o <= offset && offset + size <= o + m[o]
  {
    InRange(offset, size, offset);
    o := Owner(m, offset);
    if o + m[o] < offset + size {
      InRange(offset, size, o + m[o]);
      var q := Owner(m, o + m[o]);
      assert false;
    }
  }

  /** `m` with the free range [offset, offset + size) added and merged with its neighbours. */
  ghost function AddRange(m: FreeMap, offset: nat, size: nat): (r: FreeMap)
    requires Canonical(m) && size > 0 && Range(offset, size) !! Bytes(m)
    ensures Canonical(r)
    ensures Bytes(r) == Bytes(m) + Range(offset, size)
  {
    var right := if offset + size in m then m[offset + size] else 0;
    var rest := m - {offset + size};
    var start := if p :| p in m && p + m[p] == offset then p else offset;
    var len := offset - start + size + right;
    AddRangeCorrect(m, offset, size, start, len);
    (rest - {start})[start := len]
  }

  /** Adding a range merges it with the region ending at it and the region starting after it. */
  lemma AddRangeIs(m: FreeMap, offset: nat, size: nat, start: nat, right: nat)
    requires Canonical(m) && size > 0 && Range(offset, size) !! Bytes(m)
    requires right == if offset + size in m then m[offset + size] else 0
    requires start <= offset
    requires start == offset || (start in m && start + m[start] == offset)
    requires start == offset ==> forall p :: p in m ==> p + m[p] != offset
    ensures AddRange(m, offset, size) == (m - {offset + size} - {start})[start := offset - start + size + right]
  {
    forall p, q | p in m && q in m && p + m[p] == offset && q + m[q] == offset ensures p == q {}
  }

  /** `r` agrees with `m` away from the offsets in `changed`. */
  ghost predicate AgreeOff(m: FreeMap, r: FreeMap, changed: set<nat>) {
    && (forall o :: o in r && o !in changed ==> o in m && r[o] == m[o])
    && (forall o :: o in m && o !in changed ==> o in r && r[o] == m[o])
  }

  lemma AddRangeCorrect(m: FreeMap, offset: nat, size: nat, start: nat, len: nat)
    requires Canonical(m) && size > 0 && Range(offset, size) !! Bytes(m)
    requires start <= offset
    requires len == offset - start + size + (if offset + size in m then m[offset + size] else 0)
    requires start == offset || (start in m && start + m[start] == offset)
    requires start == offset ==> forall p :: p in m ==> p + m[p] != offset
    ensures var r := (m - {offset + size} - {start})[start := len];
            Canonical(r) && Bytes(r) == Bytes(m) + Range(offset, size)
  {
    var r := (m - {offset + size} - {start})[start := len];
    DisjointRange(m, offset, size);
    assert AgreeOff(m, r, {start, offset + size});
    AddRangeCanonical(m, offset, size, start, len, r);
    forall x ensures x in Bytes(r) <==> x in Bytes(m) || x in Range(offset, size) {
      AddRangeByte(m, offset, size, start, len, r, x);
    }
  }

  lemma AddRangeCanonical(m: FreeMap, offset: nat, size: nat, start: nat, len: nat, r: FreeMap)
    requires Canonical(m) && size > 0
    requires forall o :: o in m ==> o + m[o] <= offset || offset + size <= o
    requires start <= offset
    requires len == offset - start + size + (if offset + size in m then m[offset + size] else 0)
    requires start == offset || (start in m && start + m[start] == offset)
    requires start == offset ==> forall p :: p in m ==> p + m[p] != offset
    requires AgreeOff(m, r, {start, offset + size}) && start in r && r[start] == len
    requires offset + size !in r
    ensures Canonical(r)
  {
    forall a | a in r && a != start ensures a in m && r[a] == m[a] && (a + m[a] < start || start + len < a) {
      AddRangeApart(m, offset, size, start, len, a);
    }
    forall a, b | a in r && b in r && a < b ensures a + r[a] < b {}
  }

  /** The merged region keeps its distance from every other one. */
  lemma AddRangeApart(m: FreeMap, offset: nat, size: nat, start: nat, len: nat, a: nat)
    requires Canonical(m) && size > 0 && start <= offset && a in m && a != start && a != offset + size
    requires forall o :: o in m ==> o + m[o] <= offset || offset + size <= o
    requires len == offset - start + size + (if offset + size in m then m[offset + size] else 0)
    requires start == offset || (start in m && start + m[start] == offset)
    requires start == offset ==> forall p :: p in m ==> p + m[p] != offset
    ensures a + m[a] < start || start + len < a
  {
    if a < start {
      assert start in m ==> a + m[a] < start;
    }
  }

  lemma AddRangeByte(m: FreeMap, offset: nat, size: nat, start: nat, len: nat, r: FreeMap, x: nat)
    requires Canonical(m) && size > 0 && start <= offset
    requires forall o :: o in m ==> o + m[o] <= offset || offset + size <= o
    requires len == offset - start + size + (if offset + size in m then m[offset + size] else 0)
    requires start == offset || (start in m && start + m[start] == offset)
    requires AgreeOff(m, r, {start, offset + size}) && start in r && r[start] == len
    requires offset + size !in r
    ensures x in Bytes(r) <==> x in Bytes(m) || x in Range(offset, size)
  {
    if x in Bytes(r) {
      var o := Owner(r, x);
      if o != start { Owned(m, o, x); }
      else if x < offset { Owned(m, start, x); }
      else if x < offset + size { InRange(offset, size, x); }
      else { Owned(m, offset + size, x); }
    } else if x in Bytes(m) {
      var o := Owner(m, x);
      Owned(r, if o == offset + size then start else o, x);
    } else if x in Range(offset, size) {
      Owned(r, start, x);
    }
  }

  /** `m` with [lo, hi) cut out of the region at `o`; what sticks out on either side stays free. */
  ghost function Cut(m: FreeMap, o: nat, lo: nat, hi: nat): (r: FreeMap)
    requires Canonical(m) && o in m && lo < hi && o < hi && lo < o + m[o]
    ensures Canonical(r)
    ensures Bytes(r) == Bytes(m) - (Range(lo, hi - lo) * Range(o, m[o]))
  {
    var rest := m - {o};
    var head := if o < lo then rest[o := lo - o] else rest;
    var r := if hi < o + m[o] then head[hi := o + m[o] - hi] else head;
    CutCorrect(m, o, lo, hi, r);
    r
  }

  lemma CutCorrect(m: FreeMap, o: nat, lo: nat, hi: nat, r: FreeMap)
    requires Canonical(m) && o in m && lo < hi && o < hi && lo < o + m[o]
    requires var rest := m - {o};
             var head := if o < lo then rest[o := lo - o] else rest;
             r == if hi < o + m[o] then head[hi := o + m[o] - hi] else head
    ensures Canonical(r)
    ensures Bytes(r) == Bytes(m) - (Range(lo, hi - lo) * Range(o, m[o]))
  {
    assert hi in m ==> o + m[o] < hi;
    assert AgreeOff(m, r, if hi in m then {o} else {o, hi});
    CutCanonical(m, o, lo, hi, r);
    forall x ensures x in Bytes(r) <==> x in Bytes(m) && !(x in Range(lo, hi - lo) && x in Range(o, m[o])) {
      CutByte(m, o, lo, hi, r, x);
    }
  }

  ghost predicate IsCut(m: FreeMap, o: nat, lo: nat, hi: nat, r: FreeMap) {
    && o in m && lo < hi && o < hi && lo < o + m[o]
    && AgreeOff(m, r, if hi in m then {o} else {o, hi})
    && (o in r <==> o < lo) && (o < lo ==> r[o] == lo - o)
    && (hi !in m ==> (hi in r <==> hi < o + m[o]))
    && (hi < o + m[o] ==> hi in r && r[hi] == o + m[o] - hi)
  }

  lemma CutCanonical(m: FreeMap, o: nat, lo: nat, hi: nat, r: FreeMap)
    requires Canonical(m) && IsCut(m, o, lo, hi, r)
    ensures Canonical(r)
  {
    forall a | a in r ensures r[a] > 0 { CutEntry(m, o, lo, hi, r, a); }
    forall a, b | a in r && b in r && a < b ensures a + r[a] < b {
      CutEntry(m, o, lo, hi, r, a);
      CutEntry(m, o, lo, hi, r, b);
    }
  }

  /** An entry of the cut map is an entry that was not cut, or what is left of `o` on one side. */
  lemma CutEntry(m: FreeMap, o: nat, lo: nat, hi: nat, r: FreeMap, a: nat)
    requires Canonical(m) && IsCut(m, o, lo, hi, r) && a in r
    ensures || (a in m && a != o && r[a] == m[a] && (a + m[a] < o || o + m[o] < a))
            || (a == o && o < lo && r[a] == lo - o)
            || (a == hi && o < hi < o + m[o] && r[a] == o + m[o] - hi)
  {
  }

  lemma CutByte(m: FreeMap, o: nat, lo: nat, hi: nat, r: FreeMap, x: nat)
    requires Canonical(m) && IsCut(m, o, lo, hi, r)
    ensures x in Bytes(r) <==> x in Bytes(m) && !(x in Range(lo, hi - lo) && x in Range(o, m[o]))
  {
    if x in Bytes(r) {
      var p: nat := Owner(r, x);
      if p == o || p !in m { Owned(m, o, x); } else { Owned(m, p, x); assert o in m; }
    } else if x in Bytes(m) {
      var p: nat := Owner(m, x);
      if p != o { Owned(r, p, x); }
      else if x < lo { Owned(r, o, x); }
      else if hi <= x { Owned(r, hi, x); }
      else { InRange(lo, hi - lo, x); InRange(o, m[o], x); }
    }
  }

  lemma {:induction false} RangeSize(offset: nat, size: nat)
    ensures |Range(offset, size)| == size
  {
    if size == 0 {
      assert Range(offset, size) == {};
    } else {
      RangeSize(offset, size - 1);
      InRange(offset, size, offset + size - 1);
      assert Range(offset, size) == Range(offset, size - 1) + {offset + size - 1};
    }
  }

  /** The bytes of a canonical map split into one region's bytes and the rest. */
  lemma RemoveBytes(m: FreeMap, o: nat)
    requires Canonical(m) && o in m
    ensures Canonical(m - {o})
    ensures Bytes(m) == Bytes(m - {o}) + Range(o, m[o])
    ensures Bytes(m - {o}) !! Range(o, m[o])
  {
    var rest := m - {o};
    forall x ensures x in Bytes(m) <==> x in Bytes(rest) || x in Range(o, m[o]) {
      if x in Bytes(m) {
        var p := Owner(m, x);
        if p == o { InRange(o, m[o], x); } else { Owned(rest, p, x); }
      } else if x in Bytes(rest) {
        var p := Owner(rest, x);
        Owned(m, p, x);
      } else if x in Range(o, m[o]) {
        Owned(m, o, x);
      }
    }
    DisjointRange(rest, o, m[o]);
  }

  lemma AddRangeChanges(m: FreeMap, offset: nat, size: nat)
    requires Canonical(m) && size > 0 && Range(offset, size) !! Bytes(m)
    ensures AddRange(m, offset, size) != m
  {
    InRange(offset, size, offset);
    assert offset in Bytes(AddRange(m, offset, size)) && offset !in Bytes(m);
  }

  lemma CutChanges(m: FreeMap, o: nat, lo: nat, hi: nat)
    requires Canonical(m) && o in m && lo < hi && o < hi && lo < o + m[o]
    ensures Cut(m, o, lo, hi) != m
  {
    var x := if o < lo then lo else o;
    Owned(m, o, x);
    InRange(lo, hi - lo, x);
    InRange(o, m[o], x);
    assert x in Bytes(m) && x !in Bytes(Cut(m, o, lo, hi));
  }
}
