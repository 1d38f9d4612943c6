/** Reads, writes, evictions and flushes of the block cache as they interleave between locks.

    A flush snapshots a block by sharing its buffer, writes the bytes to the device without any lock, and marks the
    block clean only if it is still in that buffer; a writer that finds the buffer shared moves to a fresh one. A
    read that misses loads the block without a lock and inserts it only if it is still absent.
 */
module FlushProtocol {
  import opened Prelude
  import opened CacheSpec

  type Bytes = seq<byte>

  /** A block in the hands of a flusher. */
  datatype Flight = Flight(idx: nat, arc: nat, data: Bytes, stored: bool)

  /** A block in the hands of a reader that missed. */
  datatype Load = Load(idx: nat, data: Bytes)

  /** `disk` holds the blocks of the device; `nextArc` is the first buffer identity never used. */
  datatype State = State(disk: map<nat, Bytes>, cache: Images, worklist: set<nat>,
                         flights: map<nat, Flight>, loads: map<nat, Load>, nextArc: nat)

  datatype Step =
    | StartLoad(id: nat, k: nat)       // a read misses and loads the block
    | Fill(id: nat)                    // the loaded block is inserted unless the block appeared meanwhile
    | Write(k: nat, data: Bytes)       // a whole block is written
    | DropClean(k: nat)                // a clean block is evicted
    | DropDirty(k: nat)                // a dirty block is stored and evicted
    | DropFails(k: nat, count: nat)    // storing the victim fails after `count` bytes; it stays resident and dirty
    | Snapshot(id: nat, k: nat)        // a flusher takes a dirty block
    | Store(id: nat)                   // its device write succeeds
    | StoreFails(id: nat, count: nat)  // its device write fails after `count` bytes; the flusher gives the block up
    | Clear(id: nat)                   // the flusher marks the block clean if it is still in the same buffer

  predicate Legal(s: State, step: Step) {
    match step
    case StartLoad(id, k) => id !in s.loads && k in s.disk && k !in s.cache
    case Fill(id) => id in s.loads
    case Write(k, _) => k in s.disk
    case DropClean(k) => k in s.cache && !s.cache[k].dirty
    case DropDirty(k) => k in s.cache && s.cache[k].dirty
    case DropFails(k, count) => k in s.cache && s.cache[k].dirty && k in s.disk && count <= |s.cache[k].data|
    case Snapshot(id, k) => id !in s.flights && k in s.cache && s.cache[k].dirty && k in s.worklist
    case Store(id) => id in s.flights && !s.flights[id].stored
    case StoreFails(id, count) =>
      id in s.flights && !s.flights[id].stored && s.flights[id].idx in s.disk && count <= |s.flights[id].data|
    case Clear(id) => id in s.flights && s.flights[id].stored
  }

  /** What a block holds once the first `count` bytes of a write have reached it. */
  function PartWritten(data: Bytes, was: Bytes, count: nat): Bytes
    requires count <= |data|
  {
    data[..count] + if count <= |was| then was[count..] else []
  }

  /** Some flusher shares this buffer. */
  predicate Held(s: State, arc: nat) {
    exists id :: id in s.flights && s.flights[id].arc == arc
  }

  function Next(s: State, step: Step): State
    requires Legal(s, step)
  {
    match step
    case StartLoad(id, k) => s.(loads := s.loads[id := Load(k, s.disk[k])])
    case Fill(id) =>
      var l := s.loads[id];
      if l.idx in s.cache then s.(loads := s.loads - {id})
      else s.(cache := s.cache[l.idx := Image(s.nextArc, l.data, false)], nextArc := s.nextArc + 1, loads := s.loads - {id})
    case Write(k, data) =>
      // A buffer nobody shares is overwritten in place; otherwise the block moves to a fresh one.
      var inPlace := k in s.cache && !Held(s, s.cache[k].arc);
      var arc := if inPlace then s.cache[k].arc else s.nextArc;
      s.(cache := s.cache[k := Image(arc, data, true)], worklist := s.worklist + {k}, nextArc := s.nextArc + 1)
    case DropClean(k) => s.(cache := s.cache - {k})
    case DropDirty(k) => s.(cache := s.cache - {k}, worklist := s.worklist - {k}, disk := s.disk[k := s.cache[k].data])
    case DropFails(k, count) => s.(disk := s.disk[k := PartWritten(s.cache[k].data, s.disk[k], count)])
    case Snapshot(id, k) => s.(flights := s.flights[id := Flight(k, s.cache[k].arc, s.cache[k].data, false)])
    case Store(id) =>
      var f := s.flights[id];
      s.(disk := s.disk[f.idx := f.data], flights := s.flights[id := f.(stored := true)])
    case StoreFails(id, count) =>
      var f := s.flights[id];
      s.(disk := s.disk[f.idx := PartWritten(f.data, s.disk[f.idx], count)], flights := s.flights - {id})
    case Clear(id) =>
      var f := s.flights[id];
      var s' := s.(flights := s.flights - {id});
      if f.idx in s.cache && s.cache[f.idx].arc == f.arc
      then s'.(cache := s.cache[f.idx := s.cache[f.idx].(dirty := false)], worklist := s.worklist - {f.idx})
      else s'
  }

  // ----- what every interleaving keeps -----

  /** Buffers are told apart, and a shared buffer never changes under a flusher. */
  ghost predicate Arcs(cache: Images, flights: map<nat, Flight>, nextArc: nat) {
    && (forall k :: k in cache ==> cache[k].arc < nextArc)
    && (forall j, k :: j in cache && k in cache && j != k ==> cache[j].arc != cache[k].arc)
    && (forall id :: id in flights ==> flights[id].arc < nextArc)
    && (forall id, k :: id in flights && k in cache && cache[k].arc == flights[id].arc ==>
          k == flights[id].idx && cache[k].data == flights[id].data)
  }

  /** Only blocks of the device are cached, flushed or loaded. */
  ghost predicate Located(s: State) {
    && (forall k :: k in s.cache ==> k in s.disk)
    && (forall id :: id in s.flights ==> s.flights[id].idx in s.disk)
    && (forall id :: id in s.loads ==> s.loads[id].idx in s.disk)
  }

  ghost predicate WellFormed(s: State) {
    Located(s) && Arcs(s.cache, s.flights, s.nextArc) && s.worklist == DirtyOf(s.cache)
  }

  ghost function DirtyOf(cache: Images): set<nat> {
    set k | k in cache && cache[k].dirty
  }

  /** Moving a block to a fresh buffer, or overwriting one nobody shares. */
  lemma ArcsPut(cache: Images, flights: map<nat, Flight>, nextArc: nat, k: nat, b: Image)
    requires Arcs(cache, flights, nextArc)
    requires b.arc == nextArc || (k in cache && b.arc == cache[k].arc && forall id :: id in flights ==> flights[id].arc != b.arc)
    ensures Arcs(cache[k := b], flights, nextArc + 1)
  {
  }

  /** Forgetting blocks or flights, and changing flags. */
  lemma ArcsLess(cache: Images, flights: map<nat, Flight>, nextArc: nat, cache': Images, flights': map<nat, Flight>)
    requires Arcs(cache, flights, nextArc)
    requires forall k :: k in cache' ==> k in cache && cache'[k].(dirty := false) == cache[k].(dirty := false)
    requires forall id :: id in flights' ==> id in flights && flights'[id].(stored := false) == flights[id].(stored := false)
    ensures Arcs(cache', flights', nextArc)
  {
    forall k | k in cache' ensures k in cache && cache'[k].arc == cache[k].arc && cache'[k].data == cache[k].data {
      assert cache'[k].(dirty := false).data == cache[k].(dirty := false).data;
      assert cache'[k].(dirty := false).arc == cache[k].(dirty := false).arc;
    }
    forall id | id in flights' ensures id in flights && flights'[id].arc == flights[id].arc &&
        flights'[id].data == flights[id].data && flights'[id].idx == flights[id].idx {
      var f, g := flights'[id], flights[id];
      assert f.(stored := false).arc == g.(stored := false).arc && f.(stored := false).data == g.(stored := false).data &&
             f.(stored := false).idx == g.(stored := false).idx;
    }
  }

  lemma ArcsShare(cache: Images, flights: map<nat, Flight>, nextArc: nat, id: nat, k: nat)
    requires Arcs(cache, flights, nextArc) && k in cache
    ensures Arcs(cache, flights[id := Flight(k, cache[k].arc, cache[k].data, false)], nextArc)
  {
  }

  lemma KeepsArcs(s: State, step: Step)
    requires Arcs(s.cache, s.flights, s.nextArc) && Legal(s, step)
    ensures var s' := Next(s, step); Arcs(s'.cache, s'.flights, s'.nextArc)
  {
    hide Arcs;
    var s' := Next(s, step);
    match step
    case Fill(id) =>
      if s.loads[id].idx !in s.cache {
        ArcsPut(s.cache, s.flights, s.nextArc, s.loads[id].idx, s'.cache[s.loads[id].idx]);
      }
    case Write(k, _) => ArcsPut(s.cache, s.flights, s.nextArc, k, s'.cache[k]);
    case Snapshot(id, k) => ArcsShare(s.cache, s.flights, s.nextArc, id, k);
    case DropClean(_) => ArcsLess(s.cache, s.flights, s.nextArc, s'.cache, s'.flights);
    case DropDirty(_) => ArcsLess(s.cache, s.flights, s.nextArc, s'.cache, s'.flights);
    case Store(_) => ArcsLess(s.cache, s.flights, s.nextArc, s'.cache, s'.flights);
    case StoreFails(_, _) => ArcsLess(s.cache, s.flights, s.nextArc, s'.cache, s'.flights);
    case Clear(_) => ArcsLess(s.cache, s.flights, s.nextArc, s'.cache, s'.flights);
    case StartLoad(_, _) =>
    case DropFails(_, _) =>
  }

  lemma KeepsWorklist(s: State, step: Step)
    requires s.worklist == DirtyOf(s.cache) && Legal(s, step)
    ensures Next(s, step).worklist == DirtyOf(Next(s, step).cache)
  {
    hide Held;
  }

  lemma KeepsLocated(s: State, step: Step)
    requires Located(s) && Legal(s, step)
    ensures Located(Next(s, step)) && forall k :: k in Next(s, step).disk <==> k in s.disk
  {
    hide Held;
  }

  /** Every step of every interleaving keeps this, whatever the schedule. */
  lemma KeepsWellFormed(s: State, step: Step)
    requires WellFormed(s) && Legal(s, step)
    ensures WellFormed(Next(s, step)) && forall k :: k in Next(s, step).disk <==> k in s.disk
  {
    hide Arcs, DirtyOf, Next, Legal, Located;
    KeepsArcs(s, step);
    KeepsWorklist(s, step);
    KeepsLocated(s, step);
  }

  // ----- when a step is right -----

  /** What a read of block `k` returns. */
  ghost function View(s: State, k: nat): Bytes
    requires k in s.disk
  {
    if k in s.cache then s.cache[k].data else s.disk[k]
  }

  /** Clean blocks hold what the device holds. */
  ghost predicate CleanMatches(s: State) {
    forall k :: k in s.cache && k in s.disk && !s.cache[k].dirty ==> s.cache[k].data == s.disk[k]
  }

  /** What a read of block `k` should return after the step. */
  ghost function Expected(s: State, step: Step, k: nat): Bytes
    requires k in s.disk
  {
    if step.Write? && step.k == k then step.data else View(s, k)
  }

  /** Bytes `d` may reach the device at block `k` unnoticed. */
  predicate Settles(s: State, k: nat, d: Bytes) {
    if k in s.cache then s.cache[k].dirty || s.cache[k].data == d else k in s.disk && s.disk[k] == d
  }

  predicate Guard(s: State, step: Step)
    requires Legal(s, step)
  {
    match step
    case Fill(id) =>
      var l := s.loads[id]; l.idx in s.cache || (l.idx in s.disk && l.data == s.disk[l.idx])
    case Store(id) => Settles(s, s.flights[id].idx, s.flights[id].data)
    case StoreFails(id, count) =>
      var f := s.flights[id]; Settles(s, f.idx, PartWritten(f.data, s.disk[f.idx], count))
    case Clear(id) =>
      var f := s.flights[id];
      f.idx in s.cache && s.cache[f.idx].arc == f.arc ==> f.idx in s.disk && s.disk[f.idx] == f.data
    case _ => true
  }

  ghost predicate Right(s: State, step: Step, s': State) {
    CleanMatches(s') && forall k :: k in s.disk && k in s'.disk ==> View(s', k) == Expected(s, step, k)
  }

  /** A step keeps every block's contents and every clean block in step with the device exactly under its guard. */
  lemma StepExact(s: State, step: Step)
    requires WellFormed(s) && CleanMatches(s) && Legal(s, step)
    ensures Guard(s, step) <==> Right(s, step, Next(s, step))
  {
    hide Arcs, DirtyOf, Held, Right, CleanMatches;
    match step
    case Fill(id) => FillExact(s, id);
    case Store(id) => StoreExact(s, step, s.flights[id].idx, s.flights[id].data);
    case StoreFails(id, count) =>
      var f := s.flights[id];
      StoreExact(s, step, f.idx, PartWritten(f.data, s.disk[f.idx], count));
    case Clear(id) => ClearExact(s, id);
    case Write(k, data) => WriteRight(s, k, data);
    case _ => OtherRight(s, step);
  }

  lemma WriteRight(s: State, k: nat, data: Bytes)
    requires WellFormed(s) && CleanMatches(s) && Legal(s, Write(k, data))
    ensures Right(s, Write(k, data), Next(s, Write(k, data)))
  {
    hide Arcs, DirtyOf, Held;
  }

  /** Starting a load or a flush, and evicting, are always right. */
  lemma OtherRight(s: State, step: Step)
    requires WellFormed(s) && CleanMatches(s) && Legal(s, step)
    requires step.StartLoad? || step.DropClean? || step.DropDirty? || step.DropFails? || step.Snapshot?
    ensures Right(s, step, Next(s, step))
  {
    hide Arcs, DirtyOf;
  }

  lemma FillExact(s: State, id: nat)
    requires WellFormed(s) && CleanMatches(s) && Legal(s, Fill(id))
    ensures Guard(s, Fill(id)) <==> Right(s, Fill(id), Next(s, Fill(id)))
  {
    hide Arcs, DirtyOf;
    var k, s' := s.loads[id].idx, Next(s, Fill(id));
    assert k in s.disk && k in s'.cache;
    if k !in s.cache { assert View(s', k) == s.loads[id].data && Expected(s, Fill(id), k) == s.disk[k]; }
  }

  lemma StoreExact(s: State, step: Step, k: nat, d: Bytes)
    requires WellFormed(s) && CleanMatches(s) && Legal(s, step) && !step.Write? && k in s.disk
    requires Next(s, step).disk == s.disk[k := d] && Next(s, step).cache == s.cache
    ensures Settles(s, k, d) <==> Right(s, step, Next(s, step))
  {
    hide Arcs, DirtyOf, Next, Legal;
    var s' := Next(s, step);
    assert k in s'.disk && View(s', k) == (if k in s.cache then s.cache[k].data else d);
  }

  lemma ClearExact(s: State, id: nat)
    requires WellFormed(s) && CleanMatches(s) && Legal(s, Clear(id))
    ensures Guard(s, Clear(id)) <==> Right(s, Clear(id), Next(s, Clear(id)))
  {
    hide DirtyOf;
    var f, s' := s.flights[id], Next(s, Clear(id));
    if f.idx in s.cache && s.cache[f.idx].arc == f.arc {
      assert s.cache[f.idx].data == f.data;
      assert f.idx in s'.cache && !s'.cache[f.idx].dirty;
    }
  }

  // ----- runs -----

  ghost predicate IsRun(states: seq<State>, steps: seq<Step>) {
    && |states| == |steps| + 1
    && forall i :: 0 <= i < |steps| ==> StepAt(states, steps, i)
  }

  ghost predicate StepAt(states: seq<State>, steps: seq<Step>, i: nat)
    requires i < |steps| && |states| == |steps| + 1
  {
    Legal(states[i], steps[i]) && states[i + 1] == Next(states[i], steps[i])
  }

  /** What was last written to block `k` within the first `n` steps, or what it held before. */
  ghost function Written(s: State, steps: seq<Step>, n: nat, k: nat): Bytes
    requires n <= |steps| && k in s.disk
  {
    if n == 0 then View(s, k)
    else if steps[n - 1].Write? && steps[n - 1].k == k then steps[n - 1].data
    else Written(s, steps, n - 1, k)
  }

  /** After `n` steps every read returns what was last written, and clean blocks match the device. */
  ghost predicate FaithfulAt(states: seq<State>, steps: seq<Step>, n: nat)
    requires n < |states| == |steps| + 1
  {
    && CleanMatches(states[n])
    && forall k :: k in states[0].disk ==> k in states[n].disk && View(states[n], k) == Written(states[0], steps, n, k)
  }

  ghost predicate GuardedAt(states: seq<State>, steps: seq<Step>, i: nat)
    requires i < |steps| && |states| == |steps| + 1
  {
    Legal(states[i], steps[i]) && Guard(states[i], steps[i])
  }

  lemma {:induction false} RunWellFormed(states: seq<State>, steps: seq<Step>, n: nat)
    requires IsRun(states, steps) && WellFormed(states[0]) && n <= |steps|
    ensures WellFormed(states[n]) && forall k :: k in states[n].disk <==> k in states[0].disk
  {
    hide WellFormed, Next, Legal;
    if n > 0 {
      RunWellFormed(states, steps, n - 1);
      assert StepAt(states, steps, n - 1);
      KeepsWellFormed(states[n - 1], steps[n - 1]);
    }
  }

  /** One step further, faithfulness is exactly the guard. */
  lemma FaithfulNext(states: seq<State>, steps: seq<Step>, n: nat)
    requires IsRun(states, steps) && WellFormed(states[0]) && n < |steps| && FaithfulAt(states, steps, n)
    ensures FaithfulAt(states, steps, n + 1) <==> GuardedAt(states, steps, n)
  {
    hide WellFormed, Next, Legal, Guard, CleanMatches, View;
    RunWellFormed(states, steps, n);
    RunWellFormed(states, steps, n + 1);
    assert StepAt(states, steps, n);
    StepExact(states[n], steps[n]);
    forall k | k in states[0].disk
      ensures Expected(states[n], steps[n], k) == Written(states[0], steps, n + 1, k)
    {
    }
  }

  /** A run is faithful throughout exactly when every step was taken under its guard. */
  lemma RunExact(states: seq<State>, steps: seq<Step>)
    requires IsRun(states, steps) && WellFormed(states[0]) && CleanMatches(states[0])
    ensures (forall n :: 0 <= n < |states| ==> FaithfulAt(states, steps, n)) <==>
            (forall i :: 0 <= i < |steps| ==> GuardedAt(states, steps, i))
  {
    hide FaithfulAt, GuardedAt, WellFormed, StepAt;
    if forall n :: 0 <= n < |states| ==> FaithfulAt(states, steps, n) {
      forall i | 0 <= i < |steps| ensures GuardedAt(states, steps, i) {
        assert FaithfulAt(states, steps, i) && FaithfulAt(states, steps, i + 1);
        FaithfulNext(states, steps, i);
      }
    }
    if forall i :: 0 <= i < |steps| ==> GuardedAt(states, steps, i) {
      forall n | 0 <= n < |states| ensures FaithfulAt(states, steps, n) {
        GuardedFaithful(states, steps, n);
      }
    }
  }

  lemma {:induction false} GuardedFaithful(states: seq<State>, steps: seq<Step>, n: nat)
    requires IsRun(states, steps) && WellFormed(states[0]) && CleanMatches(states[0]) && n <= |steps|
    requires forall i :: 0 <= i < n ==> GuardedAt(states, steps, i)
    ensures FaithfulAt(states, steps, n)
  {
    hide GuardedAt, WellFormed;
    if n > 0 {
      GuardedFaithful(states, steps, n - 1);
      FaithfulNext(states, steps, n - 1);
    }
  }

  /** A write keeps a resident block's buffer exactly when no flusher shares it; any other write takes a buffer never
      used before. */
  lemma WriteBuffer(s: State, k: nat, data: Bytes)
    requires WellFormed(s) && Legal(s, Write(k, data))
    ensures var s' := Next(s, Write(k, data));
            && s'.cache[k] == Image(s'.cache[k].arc, data, true) && k in s'.worklist
            && (k in s.cache ==> (s'.cache[k].arc == s.cache[k].arc <==> !Held(s, s.cache[k].arc)))
            && ((k !in s.cache || Held(s, s.cache[k].arc)) ==>
                  !Held(s, s'.cache[k].arc) && forall j :: j in s.cache ==> s.cache[j].arc != s'.cache[k].arc)
  {
  }

  // ----- a schedule under which every guard holds -----

  predicate InFlight(s: State, k: nat) {
    exists id :: id in s.flights && s.flights[id].idx == k
  }

  predicate Loading(s: State, k: nat) {
    exists id :: id in s.loads && s.loads[id].idx == k
  }

  /** One flusher per block, no eviction of a block being loaded, no eviction of a dirty block being flushed. */
  predicate Allowed(s: State, step: Step) {
    match step
    case Snapshot(_, k) => !InFlight(s, k)
    case DropClean(k) => !Loading(s, k)
    case DropDirty(k) => !Loading(s, k) && !InFlight(s, k)
    case _ => true
  }

  /** What the schedule keeps: a block in flight is resident and dirty, and loaded bytes are not out of date. */
  ghost predicate Orderly(s: State) {
    && (forall a, b :: a in s.flights && b in s.flights && a != b ==> s.flights[a].idx != s.flights[b].idx)
    && (forall id :: id in s.flights ==> FlightOk(s, s.flights[id]))
    && (forall id :: id in s.loads ==> LoadOk(s, s.loads[id]))
  }

  ghost predicate FlightOk(s: State, f: Flight) {
    && f.idx in s.cache && s.cache[f.idx].dirty
    && (f.stored && s.cache[f.idx].arc == f.arc ==> f.idx in s.disk && s.disk[f.idx] == f.data)
  }

  ghost predicate LoadOk(s: State, l: Load) {
    l.idx in s.cache || (l.idx in s.disk && s.disk[l.idx] == l.data)
  }

  lemma OrderlyGuard(s: State, step: Step)
    requires WellFormed(s) && Orderly(s) && Legal(s, step)
    ensures Guard(s, step)
  {
    hide Arcs, DirtyOf;
    match step
    case Fill(id) => assert LoadOk(s, s.loads[id]);
    case Store(id) => assert FlightOk(s, s.flights[id]);
    case StoreFails(id, _) => assert FlightOk(s, s.flights[id]);
    case Clear(id) => assert FlightOk(s, s.flights[id]);
    case _ =>
  }

  lemma KeepsFlights(s: State, step: Step)
    requires WellFormed(s) && Orderly(s) && Legal(s, step) && Allowed(s, step)
    ensures var s' := Next(s, step); forall id :: id in s'.flights ==> FlightOk(s', s'.flights[id])
  {
    var s' := Next(s, step);
    forall id | id in s'.flights ensures FlightOk(s', s'.flights[id]) {
      if id in s.flights {
        assert FlightOk(s, s.flights[id]);
        FlightStays(s, step, id);
      }
    }
  }

  /** A flight that survives the step still has its block, dirty. */
  lemma FlightStays(s: State, step: Step, id: nat)
    requires WellFormed(s) && Orderly(s) && Legal(s, step) && Allowed(s, step) && id in s.flights
    requires id in Next(s, step).flights
    ensures FlightOk(Next(s, step), Next(s, step).flights[id])
  {
    hide WellFormed, Orderly;
    OrderlyFlight(s, id);
    match step
    case Write(k, data) => WrittenFlight(s, k, data, id);
    case Store(i) => OrderlyApart(s, id, i); OtherStore(s, step, id);
    case StoreFails(i, _) => OrderlyApart(s, id, i); OtherStore(s, step, id);
    case Clear(i) => OrderlyApart(s, id, i);
    case DropFails(k, count) => FailedDropFlight(s, k, count, id);
    case _ => OtherFlight(s, step, id);
  }

  lemma OrderlyFlight(s: State, id: nat)
    requires WellFormed(s) && Orderly(s) && id in s.flights
    ensures FlightOk(s, s.flights[id]) && s.flights[id].idx in s.disk && Arcs(s.cache, s.flights, s.nextArc)
  {
  }

  lemma OrderlyApart(s: State, a: nat, b: nat)
    requires Orderly(s) && a in s.flights && b in s.flights
    ensures a != b ==> s.flights[a].idx != s.flights[b].idx
  {
  }

  lemma OtherStore(s: State, step: Step, id: nat)
    requires step.Store? || step.StoreFails?
    requires Legal(s, step) && id in s.flights && FlightOk(s, s.flights[id]) && id in Next(s, step).flights
    requires step.id != id ==> s.flights[step.id].idx != s.flights[id].idx
    ensures FlightOk(Next(s, step), Next(s, step).flights[id])
  {
  }

  lemma OtherFlight(s: State, step: Step, id: nat)
    requires step.StartLoad? || step.Fill? || step.Snapshot? || step.DropClean? || step.DropDirty?
    requires Legal(s, step) && Allowed(s, step) && id in s.flights && FlightOk(s, s.flights[id])
    ensures id in Next(s, step).flights && FlightOk(Next(s, step), Next(s, step).flights[id])
  {
  }

  /** Failing to store a block that a flusher has stored from the same buffer leaves its bytes in place. */
  lemma FailedDropFlight(s: State, k: nat, count: nat, id: nat)
    requires Legal(s, DropFails(k, count)) && id in s.flights && FlightOk(s, s.flights[id])
    requires Arcs(s.cache, s.flights, s.nextArc)
    ensures FlightOk(Next(s, DropFails(k, count)), s.flights[id])
  {
    var f := s.flights[id];
    if k == f.idx && f.stored && s.cache[k].arc == f.arc {
      assert f.data[..count] + f.data[count..] == f.data;
    }
  }

  /** Rewriting a block in flight moves it to another buffer. */
  lemma WrittenFlight(s: State, k: nat, data: Bytes, id: nat)
    requires Legal(s, Write(k, data)) && id in s.flights && FlightOk(s, s.flights[id])
    requires Arcs(s.cache, s.flights, s.nextArc)
    ensures FlightOk(Next(s, Write(k, data)), s.flights[id])
  {
    var f, s' := s.flights[id], Next(s, Write(k, data));
    if k == f.idx {
      assert s'.cache[k].arc != f.arc;
    }
  }

  lemma KeepsApart(s: State, step: Step)
    requires Orderly(s) && Legal(s, step) && Allowed(s, step)
    ensures var s' := Next(s, step);
            forall a, b :: a in s'.flights && b in s'.flights && a != b ==> s'.flights[a].idx != s'.flights[b].idx
  {
    hide FlightOk, LoadOk, Held;
  }

  lemma KeepsLoads(s: State, step: Step)
    requires WellFormed(s) && Orderly(s) && Legal(s, step) && Allowed(s, step)
    ensures var s' := Next(s, step); forall id :: id in s'.loads ==> LoadOk(s', s'.loads[id])
  {
    var s' := Next(s, step);
    forall id | id in s'.loads ensures LoadOk(s', s'.loads[id]) {
      if id in s.loads { LoadStays(s, step, id); }
    }
  }

  lemma LoadStays(s: State, step: Step, id: nat)
    requires WellFormed(s) && Orderly(s) && Legal(s, step) && Allowed(s, step) && id in s.loads
    requires id in Next(s, step).loads
    ensures LoadOk(Next(s, step), Next(s, step).loads[id])
  {
    hide WellFormed, Orderly;
    OrderlyLoad(s, id);
    if step.Store? || step.StoreFails? {
      OrderlyFlight(s, step.id);
    }
    LoadFrame(s, step, id);
  }

  lemma OrderlyLoad(s: State, id: nat)
    requires Orderly(s) && id in s.loads
    ensures LoadOk(s, s.loads[id])
  {
  }

  lemma LoadFrame(s: State, step: Step, id: nat)
    requires Legal(s, step) && Allowed(s, step) && id in s.loads && LoadOk(s, s.loads[id]) && id in Next(s, step).loads
    requires step.Store? || step.StoreFails? ==> s.flights[step.id].idx in s.cache
    ensures LoadOk(Next(s, step), Next(s, step).loads[id])
  {
    hide Held, InFlight;
  }

  lemma KeepsOrderly(s: State, step: Step)
    requires WellFormed(s) && Orderly(s) && Legal(s, step) && Allowed(s, step)
    ensures Orderly(Next(s, step))
  {
    KeepsApart(s, step);
    KeepsFlights(s, step);
    KeepsLoads(s, step);
  }

  ghost predicate AllowedAt(states: seq<State>, steps: seq<Step>, i: nat)
    requires i < |steps| && i < |states|
  {
    Allowed(states[i], steps[i])
  }

  /** Nothing in hand, and clean blocks match the device. */
  ghost predicate Initial(s: State) {
    WellFormed(s) && CleanMatches(s) && s.flights == map[] && s.loads == map[]
  }

  lemma {:induction false} RunOrderly(states: seq<State>, steps: seq<Step>, n: nat)
    requires IsRun(states, steps) && Initial(states[0]) && n <= |steps|
    requires forall i :: 0 <= i < n ==> AllowedAt(states, steps, i)
    ensures Orderly(states[n]) && WellFormed(states[n])
  {
    RunWellFormed(states, steps, n);
    hide WellFormed, Next, Legal, Allowed, FlightOk, LoadOk, CleanMatches;
    if n > 0 {
      hide Orderly;
      RunOrderly(states, steps, n - 1);
      assert AllowedAt(states, steps, n - 1) && StepAt(states, steps, n - 1);
      KeepsOrderly(states[n - 1], steps[n - 1]);
    }
  }

  /** Under the schedule every run of any length is faithful: reads return what was last written, whatever is flushed,
      evicted, loaded or fails on the way. */
  lemma ScheduledRun(states: seq<State>, steps: seq<Step>)
    requires IsRun(states, steps) && Initial(states[0])
    requires forall i :: 0 <= i < |steps| ==> AllowedAt(states, steps, i)
    ensures forall n :: 0 <= n < |states| ==> FaithfulAt(states, steps, n)
  {
    hide FaithfulAt, AllowedAt, WellFormed, Orderly, CleanMatches, Legal, Guard;
    forall i | 0 <= i < |steps| ensures GuardedAt(states, steps, i) {
      RunOrderly(states, steps, i);
      assert StepAt(states, steps, i);
      OrderlyGuard(states[i], steps[i]);
    }
    RunExact(states, steps);
  }

  /** Clearing: a block rewritten since the snapshot stays dirty and on the worklist; otherwise it is clean and its
      bytes are on the device. */
  lemma ClearDecides(s: State, id: nat)
    requires WellFormed(s) && Orderly(s) && Legal(s, Clear(id))
    ensures var f, s' := s.flights[id], Next(s, Clear(id));
            && f.idx in s'.cache && s'.cache[f.idx].data == s.cache[f.idx].data
            && (s.cache[f.idx].data != f.data ==> s'.cache[f.idx].dirty && f.idx in s'.worklist)
            && (!s'.cache[f.idx].dirty ==> s'.disk[f.idx] == s'.cache[f.idx].data && f.idx !in s'.worklist)
            && (s'.cache[f.idx].dirty <==> s.cache[f.idx].arc != f.arc)
  {
    assert FlightOk(s, s.flights[id]);
  }

  // ----- no rule of the schedule can go -----

  const OLD: Bytes := [0]
  const MID: Bytes := [1]
  const NEW: Bytes := [2]

  /** Two blocks of one shard, nothing cached. */
  function TwoBlocks(): State {
    State(map[0 := OLD, 1 := OLD], map[], {}, map[], map[], 0)
  }

  ghost predicate AllowedBut(states: seq<State>, steps: seq<Step>, broken: nat) {
    |states| == |steps| + 1 && forall i :: 0 <= i < |steps| && i != broken ==> AllowedAt(states, steps, i)
  }

  /** The step inserts a block other than `k`. */
  predicate InsertsOther(s: State, step: Step, k: nat) {
    match step
    case Write(j, _) => j != k && j !in s.cache
    case Fill(id) => id in s.loads && s.loads[id].idx != k && s.loads[id].idx !in s.cache
    case _ => false
  }

  /** As the code evicts: only from a shard that holds `cap` blocks, to insert another block right after. */
  ghost predicate EvictsForRoom(states: seq<State>, steps: seq<Step>, cap: nat) {
    && |states| == |steps| + 1 && (forall i :: 0 <= i < |states| ==> |states[i].cache| <= cap)
    && forall i :: 0 <= i < |steps| ==> RoomAt(states, steps, cap, i)
  }

  ghost predicate RoomAt(states: seq<State>, steps: seq<Step>, cap: nat, i: nat)
    requires i < |steps| && |states| == |steps| + 1
  {
    match steps[i]
    case DropClean(k) => |states[i].cache| == cap && i + 1 < |steps| && InsertsOther(states[i + 1], steps[i + 1], k)
    case DropDirty(k) => |states[i].cache| == cap && i + 1 < |steps| && InsertsOther(states[i + 1], steps[i + 1], k)
    case DropFails(_, _) => |states[i].cache| == cap
    case _ => true
  }

  /** A run of `n` steps from two empty blocks of a shard of one, now at `at`, whose last write to block 0 was `last`. It
      evicts only for room and keeps every rule but that of step `broken`. */
  ghost predicate Partial(states: seq<State>, steps: seq<Step>, broken: nat, n: nat, at: State, last: Bytes) {
    && IsRun(states, steps) && states[0] == TwoBlocks() && |steps| == n && states[n] == at
    && AllowedBut(states, steps, broken) && EvictsForRoom(states, steps, 1)
    && Written(states[0], steps, n, 0) == last
  }

  predicate Drops(step: Step) {
    step.DropClean? || step.DropDirty? || step.DropFails?
  }

  function LastWrite(step: Step, last: Bytes): Bytes {
    if step.Write? && step.k == 0 then step.data else last
  }

  lemma Begun(broken: nat) returns (states: seq<State>, steps: seq<Step>)
    ensures Partial(states, steps, broken, 0, TwoBlocks(), OLD)
  {
    states, steps := [TwoBlocks()], [];
  }

  /** One more step that is not an eviction. */
  lemma Continue(states: seq<State>, steps: seq<Step>, broken: nat, n: nat, at: State, last: Bytes, step: Step, next: State)
    returns (states': seq<State>, steps': seq<Step>)
    requires Partial(states, steps, broken, n, at, last) && Legal(at, step) && Next(at, step) == next
    requires n == broken || Allowed(at, step)
    requires !Drops(step) && |next.cache| <= 1
    ensures Partial(states', steps', broken, n + 1, next, LastWrite(step, last))
  {
    hide Next, Legal, Allowed;
    states', steps' := Longer(states, steps, broken, n, at, last, step, next);
    forall i | 0 <= i < |steps'| ensures RoomAt(states', steps', 1, i) {
      if i < n { assert RoomAt(states, steps, 1, i); }
    }
  }

  /** An eviction and the insertion it makes room for. */
  lemma Replace(states: seq<State>, steps: seq<Step>, broken: nat, n: nat, at: State, last: Bytes,
                drop: Step, mid: State, step: Step, next: State)
    returns (states': seq<State>, steps': seq<Step>)
    requires Partial(states, steps, broken, n, at, last) && Legal(at, drop) && Next(at, drop) == mid
    requires Legal(mid, step) && Next(mid, step) == next && Allowed(mid, step)
    requires n == broken || Allowed(at, drop)
    requires (drop.DropClean? || drop.DropDirty?) && |at.cache| == 1 && |mid.cache| <= 1 && |next.cache| <= 1
    requires InsertsOther(mid, step, drop.k) && !Drops(step)
    ensures Partial(states', steps', broken, n + 2, next, LastWrite(step, last))
  {
    hide Next, Legal, Allowed, InsertsOther;
    var ss, ts := Longer(states, steps, broken, n, at, last, drop, mid);
    states', steps' := ss + [next], ts + [step];
    forall i | 0 <= i < |steps'| ensures StepAt(states', steps', i) { if i <= n { assert StepAt(ss, ts, i); } }
    forall i | 0 <= i < |steps'| && i != broken ensures AllowedAt(states', steps', i) {
      if i <= n { assert AllowedAt(ss, ts, i); }
    }
    forall i | 0 <= i < |steps'| ensures RoomAt(states', steps', 1, i) {
      if i < n { assert RoomAt(states, steps, 1, i); }
    }
    WrittenSnoc(ss, ts, step, 0);
    assert ss == states'[..n + 2];
  }

  /** Everything about one more step except room. */
  lemma Longer(states: seq<State>, steps: seq<Step>, broken: nat, n: nat, at: State, last: Bytes, step: Step, next: State)
    returns (states': seq<State>, steps': seq<Step>)
    requires Partial(states, steps, broken, n, at, last) && Legal(at, step) && Next(at, step) == next
    requires (n == broken || Allowed(at, step)) && |next.cache| <= 1
    ensures states' == states + [next] && steps' == steps + [step]
    ensures IsRun(states', steps') && AllowedBut(states', steps', broken)
    ensures forall i :: 0 <= i < |states'| ==> |states'[i].cache| <= 1
    ensures Written(states'[0], steps', n + 1, 0) == LastWrite(step, last)
  {
    hide Next, Legal, Allowed;
    states', steps' := states + [next], steps + [step];
    forall i | 0 <= i < |steps'| ensures StepAt(states', steps', i) { if i < n { assert StepAt(states, steps, i); } }
    forall i | 0 <= i < |steps'| && i != broken ensures AllowedAt(states', steps', i) {
      if i < n { assert AllowedAt(states, steps, i); }
    }
    WrittenSnoc(states, steps, step, 0);
  }

  lemma WrittenSnoc(states: seq<State>, steps: seq<Step>, step: Step, k: nat)
    requires |states| > 0 && k in states[0].disk
    ensures Written(states[0], steps + [step], |steps| + 1, k) ==
            if step.Write? && step.k == k then step.data else Written(states[0], steps, |steps|, k)
  {
    WrittenPrefix(states[0], steps, [step], |steps|, k);
  }

  lemma {:induction false} WrittenPrefix(s: State, steps: seq<Step>, more: seq<Step>, n: nat, k: nat)
    requires n <= |steps| && k in s.disk
    ensures Written(s, steps + more, n, k) == Written(s, steps, n, k)
  {
    if n > 0 { WrittenPrefix(s, steps, more, n - 1, k); }
  }

  /** What a run shows that ends with block 0 wrong. */
  ghost predicate Loses(states: seq<State>, steps: seq<Step>, broken: nat) {
    && IsRun(states, steps) && Initial(states[0]) && AllowedBut(states, steps, broken)
    && EvictsForRoom(states, steps, 1) && !FaithfulAt(states, steps, |steps|)
  }

  lemma EndsWrong(states: seq<State>, steps: seq<Step>, broken: nat, n: nat, at: State, last: Bytes)
    requires Partial(states, steps, broken, n, at, last) && 0 in at.disk
    requires View(at, 0) != last || (0 in at.cache && !at.cache[0].dirty && at.cache[0].data != at.disk[0])
    ensures Loses(states, steps, broken)
  {
  }

  // ----- four runs, one for each rule -----

  function Both(zero: Bytes, one: Bytes): map<nat, Bytes> {
    map[0 := zero, 1 := one]
  }

  const LOAD: map<nat, Load> := map[0 := Load(0, OLD)]

  /** Block 0 was written while a load of it is under way. */
  function WhileLoading(): State {
    State(Both(OLD, OLD), map[0 := Image(0, NEW, true)], {0}, map[], LOAD, 1)
  }

  lemma ToLoading(broken: nat) returns (states: seq<State>, steps: seq<Step>)
    ensures Partial(states, steps, broken, 2, WhileLoading(), NEW)
  {
    hide Partial;
    var s1 := State(Both(OLD, OLD), map[], {}, map[], LOAD, 0);
    states, steps := Begun(broken);
    states, steps := Continue(states, steps, broken, 0, TwoBlocks(), OLD, StartLoad(0, 0), s1);
    states, steps := Continue(states, steps, broken, 1, s1, OLD, Write(0, NEW), WhileLoading());
  }

  /** Evicting a dirty block while a load of it is under way lets the load insert out-of-date bytes. */
  lemma StaleLoad() returns (states: seq<State>, steps: seq<Step>)
    ensures Loses(states, steps, 2)
  {
    hide Partial, Loses;
    var s3 := State(Both(NEW, OLD), map[], {}, map[], LOAD, 1);
    var s4 := State(Both(NEW, OLD), map[1 := Image(1, MID, true)], {1}, map[], LOAD, 2);
    states, steps := ToLoading(2);
    states, steps := Replace(states, steps, 2, 2, WhileLoading(), NEW, DropDirty(0), s3, Write(1, MID), s4);
    states, steps := LateFill(states, steps, 2, 4, s4, 2);
  }

  /** Block 1 makes room for the load, which brings back what block 0 held before. */
  lemma LateFill(states: seq<State>, steps: seq<Step>, broken: nat, n: nat, at: State, next: nat)
    returns (states': seq<State>, steps': seq<Step>)
    requires Partial(states, steps, broken, n, at, NEW) && n != broken
    requires at == State(Both(NEW, OLD), map[1 := Image(1, MID, true)], {1}, map[], LOAD, next)
    ensures Loses(states', steps', broken)
  {
    hide Partial, Loses, Next, Legal, Allowed, InsertsOther, Drops;
    var mid := State(Both(NEW, MID), map[], {}, map[], LOAD, next);
    var end := State(Both(NEW, MID), map[0 := Image(next, OLD, false)], {}, map[], map[], next + 1);
    MakeRoom(at, mid, next);
    FillOld(mid, end, next);
    states', steps' := Replace(states, steps, broken, n, at, NEW, DropDirty(1), mid, Fill(0), end);
    EndsWrong(states', steps', broken, n + 2, end, NEW);
  }

  lemma MakeRoom(at: State, mid: State, next: nat)
    requires at == State(Both(NEW, OLD), map[1 := Image(1, MID, true)], {1}, map[], LOAD, next)
    requires mid == State(Both(NEW, MID), map[], {}, map[], LOAD, next)
    ensures Legal(at, DropDirty(1)) && Next(at, DropDirty(1)) == mid && Allowed(at, DropDirty(1))
  {
  }

  lemma FillOld(mid: State, end: State, next: nat)
    requires mid == State(Both(NEW, MID), map[], {}, map[], LOAD, next)
    requires end == State(Both(NEW, MID), map[0 := Image(next, OLD, false)], {}, map[], map[], next + 1)
    ensures Legal(mid, Fill(0)) && Next(mid, Fill(0)) == end && Allowed(mid, Fill(0))
    ensures InsertsOther(mid, Fill(0), 1) && !Drops(Fill(0))
  {
  }

  /** So does evicting a clean block: the write was flushed in the meantime. */
  lemma StaleCleanLoad() returns (states: seq<State>, steps: seq<Step>)
    ensures Loses(states, steps, 5)
  {
    hide Partial, Loses;
    var s6 := State(Both(NEW, OLD), map[], {}, map[], LOAD, 1);
    var s7 := State(Both(NEW, OLD), map[1 := Image(1, MID, true)], {1}, map[], LOAD, 2);
    states, steps := ToFlushed();
    states, steps := Replace(states, steps, 5, 5, FlushedWhileLoading(), NEW, DropClean(0), s6, Write(1, MID), s7);
    states, steps := LateFill(states, steps, 5, 7, s7, 2);
  }

  function FlushedWhileLoading(): State {
    State(Both(NEW, OLD), map[0 := Image(0, NEW, false)], {}, map[], LOAD, 1)
  }

  lemma ToFlushed() returns (states: seq<State>, steps: seq<Step>)
    ensures Partial(states, steps, 5, 5, FlushedWhileLoading(), NEW)
  {
    hide Partial;
    var s3 := WhileLoading().(flights := map[0 := Flight(0, 0, NEW, false)]);
    var s4 := s3.(disk := Both(NEW, OLD), flights := map[0 := Flight(0, 0, NEW, true)]);
    states, steps := ToLoading(5);
    states, steps := Continue(states, steps, 5, 2, WhileLoading(), NEW, Snapshot(0, 0), s3);
    states, steps := Continue(states, steps, 5, 3, s3, NEW, Store(0), s4);
    states, steps := Continue(states, steps, 5, 4, s4, NEW, Clear(0), FlushedWhileLoading());
  }

  /** Block 0 was rewritten while its older bytes are in flight. */
  function Rewritten(): State {
    State(Both(OLD, OLD), map[0 := Image(1, NEW, true)], {0}, map[0 := Flight(0, 0, MID, false)], map[], 2)
  }

  lemma ToRewritten(broken: nat) returns (states: seq<State>, steps: seq<Step>)
    ensures Partial(states, steps, broken, 3, Rewritten(), NEW)
  {
    hide Partial;
    var s1 := State(Both(OLD, OLD), map[0 := Image(0, MID, true)], {0}, map[], map[], 1);
    var s2 := s1.(flights := map[0 := Flight(0, 0, MID, false)]);
    states, steps := Begun(broken);
    states, steps := Continue(states, steps, broken, 0, TwoBlocks(), OLD, Write(0, MID), s1);
    states, steps := Continue(states, steps, broken, 1, s1, MID, Snapshot(0, 0), s2);
    assert Held(s2, 0) by { assert s2.flights[0].arc == 0; }
    states, steps := Continue(states, steps, broken, 2, s2, MID, Write(0, NEW), Rewritten());
  }

  /** Evicting a rewritten block while its old bytes are in flight loses the rewrite. */
  lemma LostWrite() returns (states: seq<State>, steps: seq<Step>)
    ensures Loses(states, steps, 3)
  {
    hide Partial, Loses;
    var s6 := Evicted().(disk := Both(MID, OLD), flights := map[0 := Flight(0, 0, MID, true)]);
    states, steps := ToEvicted();
    states, steps := Continue(states, steps, 3, 5, Evicted(), NEW, Store(0), s6);
    EndsWrong(states, steps, 3, 6, s6, NEW);
  }

  /** The rewritten block was stored and made room for block 1; its older bytes are still in flight. */
  function Evicted(): State {
    State(Both(NEW, OLD), map[1 := Image(2, MID, true)], {1}, map[0 := Flight(0, 0, MID, false)], map[], 3)
  }

  lemma ToEvicted() returns (states: seq<State>, steps: seq<Step>)
    ensures Partial(states, steps, 3, 5, Evicted(), NEW)
  {
    hide Partial, Next, Legal, Allowed, InsertsOther;
    var mid := State(Both(NEW, OLD), map[], {}, map[0 := Flight(0, 0, MID, false)], map[], 2);
    states, steps := ToRewritten(3);
    EvictRewritten(mid);
    InsertAfter(mid);
    states, steps := Replace(states, steps, 3, 3, Rewritten(), NEW, DropDirty(0), mid, Write(1, MID), Evicted());
  }

  lemma EvictRewritten(mid: State)
    requires mid == State(Both(NEW, OLD), map[], {}, map[0 := Flight(0, 0, MID, false)], map[], 2)
    ensures Legal(Rewritten(), DropDirty(0)) && Next(Rewritten(), DropDirty(0)) == mid
  {
  }

  lemma InsertAfter(mid: State)
    requires mid == State(Both(NEW, OLD), map[], {}, map[0 := Flight(0, 0, MID, false)], map[], 2)
    ensures Legal(mid, Write(1, MID)) && Next(mid, Write(1, MID)) == Evicted() && Allowed(mid, Write(1, MID))
    ensures InsertsOther(mid, Write(1, MID), 0)
  {
  }

  /** Two flushers of one block can leave it clean with out-of-date bytes on the device. */
  lemma TwoFlushers() returns (states: seq<State>, steps: seq<Step>)
    ensures Loses(states, steps, 3)
  {
    hide Partial, Loses;
    var s7 := State(Both(MID, OLD), map[0 := Image(1, NEW, false)], {}, map[0 := Flight(0, 0, MID, true)], map[], 2);
    states, steps := ToTwoFlights();
    states, steps := Continue(states, steps, 3, 6, TwoFlights(), NEW, Clear(1), s7);
    EndsWrong(states, steps, 3, 7, s7, NEW);
  }

  /** A second flusher took the rewritten block and stored it, then the first stored its older bytes. */
  function TwoFlights(): State {
    State(Both(MID, OLD), map[0 := Image(1, NEW, true)], {0},
          map[0 := Flight(0, 0, MID, true), 1 := Flight(0, 1, NEW, true)], map[], 2)
  }

  lemma ToTwoFlights() returns (states: seq<State>, steps: seq<Step>)
    ensures Partial(states, steps, 3, 6, TwoFlights(), NEW)
  {
    hide Partial, Next, Legal, Allowed, Drops;
    var s4 := Rewritten().(flights := map[0 := Flight(0, 0, MID, false), 1 := Flight(0, 1, NEW, false)]);
    var s5 := s4.(disk := Both(NEW, OLD), flights := map[0 := Flight(0, 0, MID, false), 1 := Flight(0, 1, NEW, true)]);
    states, steps := ToRewritten(3);
    SecondFlusher(s4, s5);
    FirstStores(s5);
    states, steps := Continue(states, steps, 3, 3, Rewritten(), NEW, Snapshot(1, 0), s4);
    states, steps := Continue(states, steps, 3, 4, s4, NEW, Store(1), s5);
    states, steps := Continue(states, steps, 3, 5, s5, NEW, Store(0), TwoFlights());
  }

  lemma SecondFlusher(s4: State, s5: State)
    requires s4 == Rewritten().(flights := map[0 := Flight(0, 0, MID, false), 1 := Flight(0, 1, NEW, false)])
    requires s5 == s4.(disk := Both(NEW, OLD), flights := map[0 := Flight(0, 0, MID, false), 1 := Flight(0, 1, NEW, true)])
    ensures Legal(Rewritten(), Snapshot(1, 0)) && Next(Rewritten(), Snapshot(1, 0)) == s4 && !Drops(Snapshot(1, 0))
    ensures Legal(s4, Store(1)) && Next(s4, Store(1)) == s5 && Allowed(s4, Store(1)) && !Drops(Store(1))
  {
  }

  lemma FirstStores(s5: State)
    requires s5 == State(Both(NEW, OLD), map[0 := Image(1, NEW, true)], {0},
                         map[0 := Flight(0, 0, MID, false), 1 := Flight(0, 1, NEW, true)], map[], 2)
    ensures Legal(s5, Store(0)) && Next(s5, Store(0)) == TwoFlights() && Allowed(s5, Store(0)) && !Drops(Store(0))
  {
  }
}
