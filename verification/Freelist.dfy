/** The hybrid freelist: a vector sorted by offset while small, two ordered indexes when large.

    Every operation is specified on the map the two forms stand for, so the form
    never shows: promotion and demotion leave the map alone, and best fit picks
    the same region either way.
 */
module Freelist {
  import opened Prelude
  import opened Regions

  const PROMOTE_THRESHOLD: nat := 64
  const DEMOTE_THRESHOLD: nat := 32

  datatype FreeRegion = FreeRegion(offset: nat, size: nat)

  datatype Backend =
    | Small(v: seq<FreeRegion>)
    | Large(byOffset: map<nat, nat>, bySize: set<(nat, nat)>)

  ghost predicate Sorted(v: seq<FreeRegion>) {
    forall i, j :: 0 <= i < j < |v| ==> v[i].offset < v[j].offset
  }

  ghost predicate Holds(v: seq<FreeRegion>, o: nat) {
    exists i :: 0 <= i < |v| && v[i].offset == o
  }

  /** The sorted vector `v` lists exactly the regions of `m`. */
  ghost predicate Lists(v: seq<FreeRegion>, m: FreeMap) {
    && Sorted(v)
    && (forall i :: 0 <= i < |v| ==> v[i].offset in m && m[v[i].offset] == v[i].size)
    && (forall o :: o in m ==> Holds(v, o))
  }

  /** The by-size index that belongs to `m`. */
  ghost predicate Indexes(bySize: set<(nat, nat)>, m: FreeMap) {
    && (forall o :: o in m ==> (m[o], o) in bySize)
    && (forall p :: p in bySize ==> p.1 in m && m[p.1] == p.0)
  }

  /** Lexicographic order on (size, offset), the order of the by-size index. */
  predicate SizeOrder(a: (nat, nat), b: (nat, nat)) {
    a.0 < b.0 || (a.0 == b.0 && a.1 <= b.1)
  }

  /** Region `o` can take a reservation of `size` bytes at an offset that `place` accepts. */
  ghost predicate Fits(m: FreeMap, size: nat, place: nat -> bool, o: nat) {
    o in m && m[o] >= size && place(o)
  }

  /** Region `o` is the least (size, offset) among the regions that can take the reservation. */
  ghost predicate IsBestFit(m: FreeMap, size: nat, place: nat -> bool, o: nat) {
    && Fits(m, size, place, o)
    && forall p :: Fits(m, size, place, p) ==> SizeOrder((m[o], o), (m[p], p))
  }

  /** `n` is the size of a largest region; zero when there is none. */
  ghost predicate IsLargest(m: FreeMap, n: nat) {
    (forall o :: o in m ==> m[o] <= n) && (n == 0 || exists o :: o in m && m[o] == n)
  }

  predicate IsNext(m: FreeMap, boundary: nat, o: nat) {
    o in m && boundary <= o && forall p :: p in m && boundary <= p ==> o <= p
  }

  predicate IsPrev(m: FreeMap, limit: nat, o: nat) {
    o in m && o < limit && forall p :: p in m && p < limit ==> p <= o
  }

  /** `r` is the first region at or after `boundary`, if there is one. */
  ghost predicate NextAnswer(m: FreeMap, boundary: nat, r: Option<(nat, nat)>) {
    match r
    case None => forall o :: o in m ==> o < boundary
    case Some(region) => IsNext(m, boundary, region.0) && region.1 == m[region.0]
  }

  /** `r` is the last region that starts before `limit`, if there is one. */
  ghost predicate PrevAnswer(m: FreeMap, limit: nat, r: Option<(nat, nat)>) {
    match r
    case None => forall o :: o in m ==> limit <= o
    case Some(region) => IsPrev(m, limit, region.0) && region.1 == m[region.0]
  }

  /** `m` after `size` bytes were taken from the head of region `o`. */
  ghost function TakeHead(m: FreeMap, o: nat, size: nat): FreeMap
    requires o in m && m[o] >= size
  {
    if m[o] == size then m - {o} else (m - {o})[o + size := m[o] - size]
  }

  /** What best fit does to the map `m`: nothing, or take the head of the best region. */
  ghost predicate Taken(m: FreeMap, size: nat, place: nat -> bool, r: Option<(nat, nat)>, m': FreeMap) {
    match r
    case None => m' == m && forall o :: !Fits(m, size, place, o)
    case Some(region) =>
      && IsBestFit(m, size, place, region.0) && region.1 == m[region.0]
      && m' == TakeHead(m, region.0, size)
  }

  /** The number of leading entries below `key`: where a binary search for `key` ends. */
  function LowerBound(v: seq<FreeRegion>, key: nat): (pos: nat)
    requires Sorted(v)
    ensures pos <= |v|
    ensures forall i :: 0 <= i < pos ==> v[i].offset < key
    ensures forall i :: pos <= i < |v| ==> key <= v[i].offset
  {
    if |v| == 0 || key <= v[0].offset then 0
    else
      var rest := LowerBound(v[1..], key);
      assert forall i :: 1 <= i < |v| ==> v[i] == v[1..][i - 1];
      1 + rest
  }

  /** A non-empty set of (size, offset) pairs has a least element. */
  lemma LeastPair(s: set<(nat, nat)>) returns (k: (nat, nat))
    requires s != {}
    ensures k in s && forall x :: x in s ==> SizeOrder(k, x)
  {
    k :| k in s;
    var rest := s - {k};
    assert forall x :: x in s ==> x == k || x in rest;
    if rest != {} {
      var k' := LeastPair(rest);
      if SizeOrder(k', k) { k := k'; }
    }
  }

  lemma ListsNothing()
    ensures Lists([], map[])
  {
  }

  lemma ListsSnoc(v: seq<FreeRegion>, m: FreeMap, r: FreeRegion)
    requires Lists(v, m) && forall o :: o in m ==> o < r.offset
    ensures r.offset !in m && Lists(v + [r], m[r.offset := r.size])
  {
    var w := v + [r];
    forall o | o in m[r.offset := r.size] ensures Holds(w, o) {
      if o == r.offset { assert w[|v|].offset == o; }
      else {
        assert Holds(v, o);
        var i :| 0 <= i < |v| && v[i].offset == o;
        assert w[i].offset == o;
      }
    }
  }

  lemma {:induction false} ListsSize(v: seq<FreeRegion>, m: FreeMap)
    requires Lists(v, m)
    ensures |m| == |v|
  {
    if v == [] {
      assert m == map[];
    } else {
      hide Lists;
      var n := |v| - 1;
      ListsDropLast(v, m);
      ListsSize(v[..n], m - {v[n].offset});
    }
  }

  function Drop(v: seq<FreeRegion>, i: nat): seq<FreeRegion>
    requires i < |v|
  {
    v[..i] + v[i + 1..]
  }

  lemma DropAt(v: seq<FreeRegion>, i: nat)
    requires i < |v|
    ensures |Drop(v, i)| == |v| - 1
    ensures forall k :: 0 <= k < |v| - 1 ==> Drop(v, i)[k] == if k < i then v[k] else v[k + 1]
  {
  }

  lemma DropHolds(v: seq<FreeRegion>, i: nat, o: nat)
    requires i < |v| && Holds(v, o) && o != v[i].offset
    ensures Holds(Drop(v, i), o)
  {
    DropAt(v, i);
    var k :| 0 <= k < |v| && v[k].offset == o;
    assert Drop(v, i)[if k < i then k else k - 1].offset == o;
  }

  /** Removing entry `i` removes its offset from the map. */
  lemma ListsDrop(v: seq<FreeRegion>, m: FreeMap, i: nat)
    requires Lists(v, m) && i < |v|
    ensures Lists(Drop(v, i), m - {v[i].offset})
  {
    hide Holds;
    DropAt(v, i);
    var w, m' := Drop(v, i), m - {v[i].offset};
    assert Sorted(w);
    forall k | 0 <= k < |w| ensures w[k].offset in m' && m'[w[k].offset] == w[k].size {
      assert w[k] == v[if k < i then k else k + 1];
    }
    forall o | o in m' ensures Holds(w, o) { DropHolds(v, i, o); }
  }

  lemma ListsDropLast(v: seq<FreeRegion>, m: FreeMap)
    requires Lists(v, m) && v != []
    ensures var last := v[|v| - 1];
            last.offset in m && m[last.offset] == last.size && Lists(v[..|v| - 1], m - {last.offset})
  {
    var n := |v| - 1;
    ListsDrop(v, m, n);
    assert Drop(v, n) == v[..n];
  }

  function InsertAt(v: seq<FreeRegion>, pos: nat, r: FreeRegion): seq<FreeRegion>
    requires pos <= |v|
  {
    v[..pos] + [r] + v[pos..]
  }

  lemma InsertAtAt(v: seq<FreeRegion>, pos: nat, r: FreeRegion)
    requires pos <= |v|
    ensures |InsertAt(v, pos, r)| == |v| + 1
    ensures forall k :: 0 <= k <= |v| ==>
              InsertAt(v, pos, r)[k] == if k < pos then v[k] else if k == pos then r else v[k - 1]
  {
  }

  lemma InsertAtHolds(v: seq<FreeRegion>, pos: nat, r: FreeRegion, o: nat)
    requires pos <= |v| && (Holds(v, o) || o == r.offset)
    ensures Holds(InsertAt(v, pos, r), o)
  {
    InsertAtAt(v, pos, r);
    if o == r.offset {
      assert InsertAt(v, pos, r)[pos].offset == o;
    } else {
      var k :| 0 <= k < |v| && v[k].offset == o;
      assert InsertAt(v, pos, r)[if k < pos then k else k + 1].offset == o;
    }
  }

  /** Inserting at the search position adds one entry to the map. */
  lemma ListsInsert(v: seq<FreeRegion>, m: FreeMap, pos: nat, r: FreeRegion)
    requires Lists(v, m) && pos <= |v|
    requires forall i :: 0 <= i < pos ==> v[i].offset < r.offset
    requires forall i :: pos <= i < |v| ==> r.offset < v[i].offset
    ensures Lists(InsertAt(v, pos, r), m[r.offset := r.size])
  {
    hide Holds;
    InsertAtAt(v, pos, r);
    var w, m' := InsertAt(v, pos, r), m[r.offset := r.size];
    assert Sorted(w);
    forall k | 0 <= k < |w| ensures w[k].offset in m' && m'[w[k].offset] == w[k].size {
      if k != pos { assert w[k] == v[if k < pos then k else k - 1]; }
    }
    forall o | o in m' ensures Holds(w, o) { InsertAtHolds(v, pos, r, o); }
  }

  /** Shrinking the head of entry `i` in place. */
  lemma ListsShrink(v: seq<FreeRegion>, m: FreeMap, i: nat, r: FreeRegion)
    requires Lists(v, m) && i < |v|
    requires v[i].offset <= r.offset && (i + 1 < |v| ==> r.offset < v[i + 1].offset)
    ensures Lists(v[i := r], (m - {v[i].offset})[r.offset := r.size])
  {
    var w := v[i := r];
    forall o | o in (m - {v[i].offset})[r.offset := r.size] ensures Holds(w, o) {
      if o == r.offset { assert w[i].offset == o; }
      else {
        assert Holds(v, o);
        var k :| 0 <= k < |v| && v[k].offset == o;
        assert w[k].offset == o;
      }
    }
  }

  /** The regions of `m` in offset order. */
  ghost function SortedList(m: FreeMap): (v: seq<FreeRegion>)
    ensures Lists(v, m)
  {
    SortedListExists(m);
    var v :| Lists(v, m);
    v
  }

  lemma {:induction false} SortedListExists(m: FreeMap)
    ensures exists v :: Lists(v, m)
    decreases |m|
  {
    if m == map[] {
      assert Lists([], m);
    } else {
      hide Lists;
      var k := GreatestNat(m.Keys);
      var rest := m - {k};
      SortedListExists(rest);
      var v :| Lists(v, rest);
      ListsSnoc(v, rest, FreeRegion(k, m[k]));
      assert rest[k := m[k]] == m;
    }
  }

  /** Only one vector lists a given map. */
  lemma {:induction false} ListsSame(v: seq<FreeRegion>, w: seq<FreeRegion>, m: FreeMap)
    requires Lists(v, m) && Lists(w, m)
    ensures v == w
    decreases |v|
  {
    hide Lists;
    ListsSize(v, m);
    ListsSize(w, m);
    if v != [] {
      var n := |v| - 1;
      SameLast(v, w, m);
      ListsDropLast(v, m);
      ListsDropLast(w, m);
      ListsSame(v[..n], w[..n], m - {v[n].offset});
      assert v == v[..n] + [v[n]] && w == w[..n] + [w[n]];
    }
  }

  lemma SameLast(v: seq<FreeRegion>, w: seq<FreeRegion>, m: FreeMap)
    requires Lists(v, m) && Lists(w, m) && |v| == |w| > 0
    ensures v[|v| - 1] == w[|v| - 1]
  {
    var n := |v| - 1;
    assert Holds(w, v[n].offset) && Holds(v, w[n].offset);
  }

  /** The map built by inserting the entries of `v` one after the other. */
  ghost function MapOf(v: seq<FreeRegion>): FreeMap {
    if v == [] then map[] else MapOf(v[..|v| - 1])[v[|v| - 1].offset := v[|v| - 1].size]
  }

  lemma {:induction false} MapOfLists(v: seq<FreeRegion>, m: FreeMap)
    requires Lists(v, m)
    ensures MapOf(v) == m
  {
    if v == [] {
      assert m == map[];
    } else {
      hide Lists;
      var n := |v| - 1;
      ListsDropLast(v, m);
      MapOfLists(v[..n], m - {v[n].offset});
      assert (m - {v[n].offset})[v[n].offset := v[n].size] == m;
    }
  }

  class FreelistBackend {
    var repr: Backend
    /** The free regions, offset to size, whichever form holds them. */
    ghost var view: FreeMap

    ghost predicate Valid()
      reads this
    {
      match repr
      case Small(v) => Lists(v, view)
      case Large(byOffset, bySize) => byOffset == view && Indexes(bySize, view)
    }

    constructor ()
      ensures Valid() && view == map[]
    {
      repr := Small([]);
      view := map[];
    }

    method Len() returns (n: nat)
      requires Valid()
      ensures n == |view|
    {
      match repr {
        case Small(v) =>
          ListsSize(v, view);
          n := |v|;
        case Large(byOffset, _) =>
          n := |byOffset|;
      }
    }

    method Largest() returns (n: nat)
      requires Valid()
      ensures IsLargest(view, n)
    {
      match repr {
        case Small(v) =>
          n := LargestOf(v);
          forall o | o in view ensures view[o] <= n { assert Holds(v, o); }
        case Large(byOffset, bySize) =>
          n := 0;
          if bySize != {} {
            SizesBounded(bySize);
            var p :| p in bySize && forall q :: q in bySize ==> q.0 <= p.0;
            n := p.0;
            assert view[p.1] == n;
          }
      }
    }

    static method LargestOf(v: seq<FreeRegion>) returns (n: nat)
      ensures forall k :: 0 <= k < |v| ==> v[k].size <= n
      ensures n == 0 || exists k :: 0 <= k < |v| && v[k].size == n
    {
      n := 0;
      for i := 0 to |v|
        invariant forall k :: 0 <= k < i ==> v[k].size <= n
        invariant n == 0 || exists k :: 0 <= k < i && v[k].size == n
      {
        if v[i].size > n { n := v[i].size; }
      }
    }

    static lemma SizesBounded(bySize: set<(nat, nat)>)
      requires bySize != {}
      ensures exists p :: p in bySize && forall q :: q in bySize ==> q.0 <= p.0
    {
      var some :| some in bySize;
      var sizes := set p | p in bySize :: p.0;
      assert some.0 in sizes;
      var top := GreatestNat(sizes);
      var p :| p in bySize && p.0 == top;
      assert forall q :: q in bySize ==> q.0 in sizes;
    }

    /** Takes `size` bytes from the head of the best-fitting region, if there is one. */
    method BestFit(size: nat, place: nat -> bool) returns (r: Option<(nat, nat)>)
      requires Valid() && Canonical(view)
      requires forall o :: o in view ==> view[o] < U64_LIMIT - 1
      modifies this
      ensures Valid() && Taken(old(view), size, place, r, view)
    {
      match repr {
        case Small(v) =>
          var w;
          r, w := BestFitSmall(v, size, place, view);
          repr := Small(w);
        case Large(byOffset, bySize) =>
          var offsets, sizes;
          r, offsets, sizes := BestFitLarge(byOffset, bySize, size, place);
          repr := Large(offsets, sizes);
      }
      view := if r.None? then view else TakeHead(view, r.value.0, size);
    }

    static method BestFitSmall(v: seq<FreeRegion>, size: nat, place: nat -> bool, ghost m: FreeMap)
      returns (r: Option<(nat, nat)>, w: seq<FreeRegion>)
      requires Lists(v, m) && Canonical(m)
      requires forall o :: o in m ==> m[o] < U64_LIMIT - 1
      ensures r.None? ==> Lists(w, m) && forall o :: !Fits(m, size, place, o)
      ensures r.Some? ==> IsBestFit(m, size, place, r.value.0) && r.value.1 == m[r.value.0]
      ensures r.Some? ==> Lists(w, TakeHead(m, r.value.0, size))
    {
      hide Lists, Fits, Canonical, Holds, IsBestFit, Least, Sorted;
      EntrySizes(v, m);
      var idx, n := LeastWaste(v, size, place);
      if idx.None? {
        NoneFits(v, m, size, place);
        return None, v;
      }
      var i := idx.value;
      var region := v[i];
      LeastFits(v, size, place, i, n);
      LeastIsBestFit(v, size, place, i, n, m);
      NextAfter(v, m, i, size);
      if region.size == size {
        w := Drop(v, i);
        ListsDrop(v, m, i);
      } else {
        w := v[i := FreeRegion(region.offset + size, region.size - size)];
        ListsShrink(v, m, i, w[i]);
      }
      r := Some((region.offset, region.size));
    }

    static lemma EntrySizes(v: seq<FreeRegion>, m: FreeMap)
      requires Lists(v, m) && forall o :: o in m ==> m[o] < U64_LIMIT - 1
      ensures Sorted(v) && forall i :: 0 <= i < |v| ==> v[i].size < U64_LIMIT - 1
    {
    }

    static lemma NoneFits(v: seq<FreeRegion>, m: FreeMap, size: nat, place: nat -> bool)
      requires Lists(v, m) && forall k :: 0 <= k < |v| ==> !(v[k].size >= size && place(v[k].offset))
      ensures forall o :: !Fits(m, size, place, o)
    {
      forall o ensures !Fits(m, size, place, o) {
        if o in m { assert Holds(v, o); }
      }
    }

    static lemma LeastFits(v: seq<FreeRegion>, size: nat, place: nat -> bool, b: nat, n: nat)
      requires Least(v, size, place, b, n)
      ensures b < |v| && size <= v[b].size
    {
    }

    /** The entry's map value, and room for its remainder before the next entry. */
    static lemma NextAfter(v: seq<FreeRegion>, m: FreeMap, i: nat, size: nat)
      requires Lists(v, m) && Canonical(m) && i < |v| && size <= v[i].size
      ensures v[i].offset in m && m[v[i].offset] == v[i].size
      ensures i + 1 < |v| ==> v[i].offset + size < v[i + 1].offset
    {
      if i + 1 < |v| { assert v[i + 1].offset in m; }
    }

    /** The scan of the small form: the first entry of least waste among the first `n`. */
    static method LeastWaste(v: seq<FreeRegion>, size: nat, place: nat -> bool)
      returns (best: Option<nat>, ghost n: nat)
      requires Sorted(v)
      requires forall i :: 0 <= i < |v| ==> v[i].size < U64_LIMIT - 1
      ensures best.None? ==> forall k :: 0 <= k < |v| ==> !(v[k].size >= size && place(v[k].offset))
      ensures best.Some? ==> Least(v, size, place, best.value, n) && (n == |v| || v[best.value].size == size)
    {
      best := None;
      var bestWaste := U64_LIMIT - 1;
      for i := 0 to |v|
        invariant best.None? ==> bestWaste == U64_LIMIT - 1
        invariant best.None? ==> forall k :: 0 <= k < i ==> !(v[k].size >= size && place(v[k].offset))
        invariant best.Some? ==> Least(v, size, place, best.value, i)
        invariant best.Some? ==> bestWaste == v[best.value].size - size
      {
        if v[i].size >= size && place(v[i].offset) {
          var waste := v[i].size - size;
          if waste < bestWaste {
            bestWaste := waste;
            best := Some(i);
            if waste == 0 {
              return best, i + 1;
            }
          }
        }
      }
      n := |v|;
    }

    /** Among the first `n` entries that qualify, entry `b` is first in (size, offset) order. */
    static ghost predicate Least(v: seq<FreeRegion>, size: nat, place: nat -> bool, b: nat, n: nat) {
      && b < n <= |v| && v[b].size >= size && place(v[b].offset)
      && forall k :: 0 <= k < n && v[k].size >= size && place(v[k].offset) ==>
           SizeOrder((v[b].size, v[b].offset), (v[k].size, v[k].offset))
    }

    static lemma LeastIsBestFit(v: seq<FreeRegion>, size: nat, place: nat -> bool, b: nat, n: nat, m: FreeMap)
      requires Lists(v, m) && Least(v, size, place, b, n)
      requires n == |v| || v[b].size == size
      ensures IsBestFit(m, size, place, v[b].offset)
    {
      forall p | Fits(m, size, place, p) ensures SizeOrder((m[v[b].offset], v[b].offset), (m[p], p)) {
        assert Holds(v, p);
        var k :| 0 <= k < |v| && v[k].offset == p;
      }
    }

    static method BestFitLarge(byOffset: map<nat, nat>, bySize: set<(nat, nat)>, size: nat, place: nat -> bool)
      returns (r: Option<(nat, nat)>, offsets: map<nat, nat>, sizes: set<(nat, nat)>)
      requires Indexes(bySize, byOffset) && Canonical(byOffset)
      ensures Indexes(sizes, offsets) && Taken(byOffset, size, place, r, offsets)
    {
      hide Indexes, Canonical, SizeOrder, IsBestFit, Fits;
      if forall p :: p in bySize ==> !(size <= p.0 && place(p.1)) {
        NoCandidate(bySize, byOffset, size, place);
        return None, byOffset, bySize;
      }
      ghost var least := LeastCandidate(bySize, size, place);
      var p :| p in bySize && size <= p.0 && place(p.1) &&
               forall q :: q in bySize && size <= q.0 && place(q.1) ==> SizeOrder(p, q);
      offsets, sizes := byOffset - {p.1}, bySize - {p};
      if p.0 > size {
        offsets := offsets[p.1 + size := p.0 - size];
        sizes := sizes + {(p.0 - size, p.1 + size)};
      }
      r := Some((p.1, p.0));
      LeastIsBest(bySize, byOffset, size, place, p);
      IndexesTake(bySize, byOffset, p, size);
    }

    static lemma NoCandidate(bySize: set<(nat, nat)>, m: FreeMap, size: nat, place: nat -> bool)
      requires Indexes(bySize, m) && forall p :: p in bySize ==> !(size <= p.0 && place(p.1))
      ensures forall o :: !Fits(m, size, place, o)
    {
      assert forall o :: o in m ==> (m[o], o) in bySize;
    }

    /** The least qualifying pair of the size index names the best-fitting region. */
    static lemma LeastIsBest(bySize: set<(nat, nat)>, m: FreeMap, size: nat, place: nat -> bool, p: (nat, nat))
      requires Indexes(bySize, m) && p in bySize && size <= p.0 && place(p.1)
      requires forall q :: q in bySize && size <= q.0 && place(q.1) ==> SizeOrder(p, q)
      ensures p.1 in m && m[p.1] == p.0 && IsBestFit(m, size, place, p.1)
    {
      hide SizeOrder;
      forall o | Fits(m, size, place, o) ensures SizeOrder((m[p.1], p.1), (m[o], o)) { assert (m[o], o) in bySize; }
    }

    static lemma IndexesTake(bySize: set<(nat, nat)>, m: FreeMap, p: (nat, nat), size: nat)
      requires Indexes(bySize, m) && Canonical(m) && p in bySize && size <= p.0
      ensures p.0 == size ==> Indexes(bySize - {p}, TakeHead(m, p.1, size))
      ensures p.0 > size ==> Indexes(bySize - {p} + {(p.0 - size, p.1 + size)}, TakeHead(m, p.1, size))
    {
      if p.0 > size {
        assert size > 0 ==> p.1 + size !in m;
        hide Canonical;
        var sizes, m' := bySize - {p} + {(p.0 - size, p.1 + size)}, TakeHead(m, p.1, size);
        assert forall o :: o in m' && o != p.1 + size ==> o in m && m'[o] == m[o];
      }
    }

    static lemma LeastCandidate(bySize: set<(nat, nat)>, size: nat, place: nat -> bool) returns (p: (nat, nat))
      requires exists p :: p in bySize && size <= p.0 && place(p.1)
      ensures p in bySize && size <= p.0 && place(p.1)
      ensures forall q :: q in bySize && size <= q.0 && place(q.1) ==> SizeOrder(p, q)
    {
      hide SizeOrder;
      var some :| some in bySize && size <= some.0 && place(some.1);
      var candidates := set q | q in bySize && size <= q.0 && place(q.1);
      assert some in candidates;
      p := LeastPair(candidates);
      assert p in candidates;
      forall q | q in bySize && size <= q.0 && place(q.1) ensures SizeOrder(p, q) { assert q in candidates; }
    }

    /** Adds a region at an offset the list does not hold; never merges. */
    method Insert(offset: nat, size: nat)
      requires Valid() && offset !in view
      modifies this
      ensures Valid() && view == old(view)[offset := size]
    {
      match repr {
        case Small(v) =>
          var pos := LowerBound(v, offset);
          ListsInsert(v, view, pos, FreeRegion(offset, size));
          repr := Small(InsertAt(v, pos, FreeRegion(offset, size)));
        case Large(byOffset, bySize) =>
          repr := Large(byOffset[offset := size], bySize + {(size, offset)});
      }
      view := view[offset := size];
    }

    method Remove(offset: nat) returns (r: Option<nat>)
      requires Valid()
      modifies this
      ensures Valid() && view == old(view) - {offset}
      ensures r == if offset in old(view) then Some(old(view)[offset]) else None
    {
      match repr {
        case Small(v) =>
          var pos := LowerBound(v, offset);
          if pos < |v| && v[pos].offset == offset {
            ListsDrop(v, view, pos);
            repr := Small(Drop(v, pos));
            r := Some(v[pos].size);
          } else {
            r := None;
          }
        case Large(byOffset, bySize) =>
          if offset in byOffset {
            r := Some(byOffset[offset]);
            repr := Large(byOffset - {offset}, bySize - {(byOffset[offset], offset)});
          } else {
            r := None;
          }
      }
      view := view - {offset};
    }

    /** The first region at or after `boundary`. */
    method NextFrom(boundary: nat) returns (r: Option<(nat, nat)>)
      requires Valid()
      ensures NextAnswer(view, boundary, r)
    {
      match repr {
        case Small(v) =>
          var pos := LowerBound(v, boundary);
          forall o | o in view ensures o < boundary || (pos < |v| && v[pos].offset <= o) {
            assert Holds(v, o);
          }
          r := if pos < |v| then Some((v[pos].offset, v[pos].size)) else None;
        case Large(byOffset, _) =>
          if forall o :: o in byOffset ==> o < boundary {
            return None;
          }
          LeastKey(byOffset, boundary);
          var o :| o in byOffset && IsNext(byOffset, boundary, o);
          r := Some((o, byOffset[o]));
      }
    }

    static lemma LeastKey(m: map<nat, nat>, boundary: nat)
      requires exists o :: o in m && boundary <= o
      ensures exists o :: o in m && IsNext(m, boundary, o)
    {
      var some :| some in m && boundary <= some;
      var above := set o | o in m && boundary <= o;
      assert some in above;
      var least := LeastNat(above);
      forall p | p in m && boundary <= p ensures least <= p { assert p in above; }
      assert IsNext(m, boundary, least);
    }

    /** The last region that starts before `limit`. */
    method PrevBefore(limit: nat) returns (r: Option<(nat, nat)>)
      requires Valid()
      ensures PrevAnswer(view, limit, r)
    {
      match repr {
        case Small(v) =>
          var pos := LowerBound(v, limit);
          forall o | o in view ensures limit <= o || (pos > 0 && o <= v[pos - 1].offset) {
            assert Holds(v, o);
          }
          r := if pos > 0 then Some((v[pos - 1].offset, v[pos - 1].size)) else None;
        case Large(byOffset, _) =>
          if forall o :: o in byOffset ==> limit <= o {
            return None;
          }
          GreatestKey(byOffset, limit);
          var o :| o in byOffset && IsPrev(byOffset, limit, o);
          r := Some((o, byOffset[o]));
      }
    }

    static lemma GreatestKey(m: map<nat, nat>, limit: nat)
      requires exists o :: o in m && o < limit
      ensures exists o :: o in m && IsPrev(m, limit, o)
    {
      var some :| some in m && some < limit;
      var below := set o | o in m && o < limit;
      assert some in below;
      var greatest := GreatestNat(below);
      forall p | p in m && p < limit ensures p <= greatest { assert p in below; }
      assert IsPrev(m, limit, greatest);
    }

    /** Every region in offset order. */
    method InOffsetOrder() returns (v: seq<FreeRegion>)
      requires Valid()
      ensures Lists(v, view)
    {
      match repr {
        case Small(w) => v := w;
        case Large(byOffset, _) => v := SortByOffset(byOffset);
      }
    }

    static method SortByOffset(m: map<nat, nat>) returns (v: seq<FreeRegion>)
      ensures Lists(v, m)
    {
      hide Lists;
      v := [];
      var rest := m;
      ghost var done: FreeMap := map[];
      ListsNothing();
      while rest != map[]
        invariant forall o :: o in rest ==> o in m && rest[o] == m[o] && o !in done
        invariant forall o :: o in m ==> o in rest || (o in done && done[o] == m[o])
        invariant forall o :: o in done ==> o in m
        invariant Lists(v, done)
        invariant forall o, p :: o in done && p in rest ==> o < p
        decreases |rest|
      {
        LeastKey(rest, 0);
        var o :| o in rest && IsNext(rest, 0, o);
        ListsSnoc(v, done, FreeRegion(o, rest[o]));
        v := v + [FreeRegion(o, rest[o])];
        done := done[o := rest[o]];
        rest := rest - {o};
      }
      assert done == m;
    }

    /** Small to large once the vector holds more than PROMOTE_THRESHOLD regions. */
    method MaybePromote()
      requires Valid()
      modifies this
      ensures Valid() && view == old(view)
      ensures repr.Large? <==> old(repr.Large?) || |view| > PROMOTE_THRESHOLD
    {
      if repr.Small? {
        ListsSize(repr.v, view);
        if |repr.v| > PROMOTE_THRESHOLD {
          var byOffset, bySize := IndexBoth(repr.v, view);
          repr := Large(byOffset, bySize);
        }
      }
    }

    static method IndexBoth(v: seq<FreeRegion>, ghost m: FreeMap)
      returns (byOffset: map<nat, nat>, bySize: set<(nat, nat)>)
      requires Lists(v, m)
      ensures byOffset == m && Indexes(bySize, m)
    {
      byOffset, bySize := map[], {};
      for i := 0 to |v|
        invariant forall o :: o in byOffset ==> o in m && byOffset[o] == m[o]
        invariant forall k :: 0 <= k < i ==> v[k].offset in byOffset
        invariant forall k :: i <= k < |v| ==> v[k].offset !in byOffset
        invariant Indexes(bySize, byOffset)
      {
        byOffset := byOffset[v[i].offset := v[i].size];
        bySize := bySize + {(v[i].size, v[i].offset)};
      }
      forall o | o in m ensures o in byOffset { assert Holds(v, o); }
    }

    /** Large back to small once fewer than DEMOTE_THRESHOLD regions remain. */
    method MaybeDemote()
      requires Valid()
      modifies this
      ensures Valid() && view == old(view)
      ensures repr.Large? <==> old(repr.Large?) && |view| >= DEMOTE_THRESHOLD
    {
      if repr.Large? && |repr.byOffset| < DEMOTE_THRESHOLD {
        var v := SortByOffset(repr.byOffset);
        repr := Small(v);
      }
    }
  }
}
