/** The checkpoint protocol against concurrent mutations: sample a fence, snapshot, flush, sync, fence, reclaim.

    A mutation is an upsert of one key, identified by a ticket; later mutations of a key have larger tickets. A store
    maps each key to the ticket of the newest mutation it reflects. Sequence number `n` of the redo log is the `n`th
    entry appended, so a fence is the number of entries it covers.
 */
module Checkpoints {
  import Prelude

  datatype Entry = Entry(key: nat, ticket: nat)

  type Store = map<nat, nat>

  /** A mutation that holds the visibility barrier. */
  datatype Mutation = Mutation(key: nat, appended: bool, applied: bool)

  /** How far a checkpoint has come. While a snapshot is taken, `taken` holds the shards in `done`. */
  datatype Stage =
    | Capturing(taken: Store, done: set<nat>)
    | CapturingMined(taken: Store, done: set<nat>)
    | Flushing
    | Syncing
    | Fencing
    | Reclaiming

  datatype Checkpoint = Idle | Running(fence: nat, blocking: bool, stage: Stage)

  /** What readers see: the in-memory index, the in-memory mined index and the records on the device. */
  datatype Live = Live(index: Store, mined: Store, data: Store)

  /** `log`, `live` and `inflight` are the running node. After a crash what remains is the first `durable` entries of
      the log beyond the reclaimed prefix, the fences, the two snapshots and at least the synced device. */
  datatype Node = Node(shards: nat, log: seq<Entry>, inflight: map<nat, Mutation>, tickets: nat, live: Live,
                       durable: nat, fence: nat, reclaimed: nat,
                       snapshot: Store, mined: Store, minedFence: nat, synced: Store, checkpoint: Checkpoint)

  datatype Step =
    | Begin(key: nat)          // a mutation takes the barrier
    | Append(t: nat)           // its redo entry is appended
    | Apply(t: nat)            // its effect becomes visible
    | Finish(t: nat)           // it releases the barrier
    | Abort(t: nat)            // it gives up before doing anything
    | Harden(n: nat)           // the redo log becomes durable up to entry n
    | Start(blocking: bool)    // a checkpoint quiesces mutations and samples its fence
    | Capture(shard: nat)      // the index snapshot serializes a shard
    | Publish                  // the index snapshot replaces the previous one
    | CaptureMined(shard: nat) // the mined snapshot serializes a shard
    | PublishMined             // the mined snapshot, stamped with the fence, replaces the previous one
    | FlushRedo                // the redo log is flushed
    | SyncDevices              // the data devices are synced
    | WriteFence               // the fence is recorded in the redo log
    | Reclaim                  // the covered prefix is reclaimed
    | SkipReclaim              // the prefix is still needed elsewhere
    | Fail                     // any step of the checkpoint fails
    | Restart(left: Store)     // the node crashes with `left` on its device, and recovers

  predicate Legal(n: Node, step: Step) {
    var c := n.checkpoint;
    match step
    case Begin(key) => (c.Running? ==> !c.blocking) && forall t :: t in n.inflight ==> n.inflight[t].key != key
    case Append(t) => t in n.inflight && !n.inflight[t].appended
    case Apply(t) => t in n.inflight && !n.inflight[t].applied
    case Finish(t) => t in n.inflight && n.inflight[t].appended && n.inflight[t].applied
    case Abort(t) => t in n.inflight && !n.inflight[t].appended && !n.inflight[t].applied
    case Harden(m) => n.durable <= m <= |n.log|
    case Start(_) => c.Idle? && n.inflight == map[]
    case Capture(i) => c.Running? && c.stage.Capturing? && i < n.shards
    case Publish => c.Running? && c.stage.Capturing? && AllShards(n.shards, c.stage.done)
    case CaptureMined(i) => c.Running? && c.stage.CapturingMined? && i < n.shards
    case PublishMined => c.Running? && c.stage.CapturingMined? && AllShards(n.shards, c.stage.done)
    case FlushRedo => c.Running? && c.stage.Flushing?
    case SyncDevices => c.Running? && c.stage.Syncing?
    case WriteFence => c.Running? && c.stage.Fencing?
    case Reclaim => c.Running? && c.stage.Reclaiming?
    case SkipReclaim => c.Running? && c.stage.Reclaiming?
    case Fail => c.Running?
    case Restart(left) => n.durable <= |n.log| && Survives(n.synced, left) && Bounded(left, n.tickets)
  }

  /** A device after power loss: each record is as synced or as written since. */
  predicate Survives(synced: Store, left: Store) {
    forall k :: k in synced ==> k in left && synced[k] <= left[k]
  }

  predicate Bounded(s: Store, tickets: nat) {
    forall k :: k in s ==> s[k] < tickets
  }

  predicate AllShards(shards: nat, done: set<nat>) {
    forall i :: 0 <= i < shards ==> i in done
  }

  function ShardOf(key: nat, shards: nat): nat
    requires shards > 0
  {
    key % shards
  }

  /** The part of a store that lies in one shard. */
  function Shard(s: Store, shards: nat, i: nat): Store
    requires shards > 0
  {
    map k | k in s && ShardOf(k, shards) == i :: s[k]
  }

  function Next(n: Node, step: Step): Node
    requires n.shards > 0 && Legal(n, step)
  {
    var c := n.checkpoint;
    match step
    case Begin(key) => n.(inflight := n.inflight[n.tickets := Mutation(key, false, false)], tickets := n.tickets + 1)
    case Append(t) =>
      var m := n.inflight[t];
      n.(log := n.log + [Entry(m.key, t)], inflight := n.inflight[t := m.(appended := true)])
    case Apply(t) =>
      var m := n.inflight[t];
      n.(live := Upsert(n.live, m.key, t), inflight := n.inflight[t := m.(applied := true)])
    case Finish(t) => n.(inflight := n.inflight - {t})
    case Abort(t) => n.(inflight := n.inflight - {t})
    case Harden(m) => n.(durable := m)
    case Start(blocking) => n.(checkpoint := Running(|n.log|, blocking, Capturing(map[], {})))
    case Capture(i) =>
      n.(checkpoint := c.(stage := Capturing(c.stage.taken + Shard(n.live.index, n.shards, i), c.stage.done + {i})))
    case Publish => n.(snapshot := c.stage.taken, checkpoint := c.(stage := CapturingMined(map[], {})))
    case CaptureMined(i) =>
      n.(checkpoint := c.(stage := CapturingMined(c.stage.taken + Shard(n.live.mined, n.shards, i), c.stage.done + {i})))
    case PublishMined => n.(mined := c.stage.taken, minedFence := c.fence, checkpoint := c.(stage := Flushing))
    case FlushRedo => n.(durable := |n.log|, checkpoint := c.(stage := Syncing))
    case SyncDevices => n.(synced := n.live.data, checkpoint := c.(stage := Fencing))
    case WriteFence => n.(fence := c.fence, checkpoint := c.(stage := Reclaiming))
    case Reclaim => n.(reclaimed := c.fence, checkpoint := Idle)
    case SkipReclaim => n.(checkpoint := Idle)
    case Fail => n.(checkpoint := Idle)
    case Restart(left) => Recovered(n, left)
  }

  function Upsert(l: Live, key: nat, t: nat): Live {
    Live(l.index[key := t], l.mined[key := t], l.data[key := t])
  }

  /** Recovery: restore each store and replay the durable entries above its fence. Lost entries free their sequence
      numbers. */
  function Recovered(n: Node, left: Store): Node
    requires n.durable <= |n.log|
  {
    n.(log := n.log[..n.durable], inflight := map[], checkpoint := Idle, synced := left,
       live := Live(Replay(n.snapshot, Tail(n.log, n.fence, n.durable)),
                    Replay(n.mined, Tail(n.log, n.minedFence, n.durable)),
                    Replay(left, Tail(n.log, n.fence, n.durable))))
  }

  // ----- coverage -----

  /** The store is at least as new as the first `f` entries. */
  ghost predicate Covers(s: Store, log: seq<Entry>, f: nat)
    requires f <= |log|
  {
    forall i :: 0 <= i < f ==> Reflects(s, log[i])
  }

  ghost predicate Reflects(s: Store, e: Entry) {
    e.key in s && e.ticket <= s[e.key]
  }

  /** The captured shards are at least as new as the first `f` entries. */
  ghost predicate CoversShards(s: Store, log: seq<Entry>, f: nat, shards: nat, done: set<nat>)
    requires f <= |log| && shards > 0
  {
    forall i :: 0 <= i < f && ShardOf(log[i].key, shards) in done ==> Reflects(s, log[i])
  }

  /** Per key, entries are appended in ticket order. */
  ghost predicate Ordered(log: seq<Entry>) {
    forall i, j :: 0 <= i < j < |log| && log[i].key == log[j].key ==> log[i].ticket < log[j].ticket
  }

  // ----- replay -----

  /** Applies redo entries in order; each sets its key, whatever is there. */
  function Replay(s: Store, entries: seq<Entry>): Store {
    if entries == [] then s
    else
      var e := entries[|entries| - 1];
      Replay(s, entries[..|entries| - 1])[e.key := e.ticket]
  }

  /** What recovery replays over a store covered up to `f`. */
  function Tail(log: seq<Entry>, f: nat, durable: nat): seq<Entry>
    requires durable <= |log|
  {
    if f <= durable then log[f..durable] else []
  }

  /** Replaying the durable entries above the fence leaves no key older than its newest durable mutation. */
  lemma {:induction false} ReplayCovers(s: Store, log: seq<Entry>, f: nat, durable: nat)
    requires f <= |log| && durable <= |log| && Covers(s, log, f) && Ordered(log)
    ensures Covers(Replay(s, Tail(log, f, durable)), log, durable)
    decreases durable
  {
    if f < durable {
      var e := log[durable - 1];
      ReplayCovers(s, log, f, durable - 1);
      var before := Replay(s, Tail(log, f, durable - 1));
      assert Tail(log, f, durable)[..durable - 1 - f] == Tail(log, f, durable - 1);
      var after := Replay(s, Tail(log, f, durable));
      assert after == before[e.key := e.ticket];
      forall i | 0 <= i < durable ensures Reflects(after, log[i]) {
        if i < durable - 1 { assert Reflects(before, log[i]); }
      }
    }
  }

  /** Exactly: a key with durable entries above the fence gets the newest of them, any other keeps its value. */
  lemma {:induction false} ReplayExact(s: Store, log: seq<Entry>, f: nat, durable: nat, key: nat)
    requires f <= durable <= |log|
    ensures var r := Replay(s, log[f..durable]);
            if exists i :: f <= i < durable && log[i].key == key
            then exists i :: f <= i < durable && NewestAt(log, i, durable, key) && key in r && r[key] == log[i].ticket
            else (key in r <==> key in s) && (key in s ==> r[key] == s[key])
    decreases durable
  {
    if f < durable {
      ReplayExact(s, log, f, durable - 1, key);
      assert log[f..durable][..durable - 1 - f] == log[f..durable - 1];
      if log[durable - 1].key == key {
        assert NewestAt(log, durable - 1, durable, key);
      } else if exists i :: f <= i < durable - 1 && log[i].key == key {
        var i :| f <= i < durable - 1 && NewestAt(log, i, durable - 1, key) &&
                 Replay(s, log[f..durable - 1])[key] == log[i].ticket;
        assert NewestAt(log, i, durable, key);
      }
    }
  }

  /** Entry `i` is the last one for `key` among the first `durable`. */
  ghost predicate NewestAt(log: seq<Entry>, i: nat, durable: nat, key: nat)
    requires durable <= |log|
  {
    i < durable && log[i].key == key && forall j :: i < j < durable ==> log[j].key != key
  }

  // ----- what every step keeps: mutations -----

  /** Tickets order the mutations of a key, in the log and in flight. */
  ghost predicate Ticketed(log: seq<Entry>, inflight: map<nat, Mutation>, tickets: nat) {
    && Ordered(log)
    && (forall i :: 0 <= i < |log| ==> log[i].ticket < tickets)
    && (forall t :: t in inflight ==> t < tickets)
    && (forall t, u :: t in inflight && u in inflight && t != u ==> inflight[t].key != inflight[u].key)
    && (forall t, i :: t in inflight && 0 <= i < |log| && log[i].key == inflight[t].key ==>
          log[i].ticket < t || (log[i].ticket == t && inflight[t].appended))
  }

  /** Every logged mutation is visible in the store, or still in flight; visible mutations are the newest. */
  ghost predicate Visible(log: seq<Entry>, inflight: map<nat, Mutation>, tickets: nat, live: Store) {
    && Bounded(live, tickets)
    && (forall t :: t in inflight ==> Current(live, t, inflight[t]))
    && (forall i :: 0 <= i < |log| ==> Reflects(live, log[i]) || Pending(inflight, log[i]))
  }

  ghost predicate Current(live: Store, t: nat, m: Mutation) {
    if m.applied then m.key in live && live[m.key] == t else m.key in live ==> live[m.key] < t
  }

  ghost predicate Pending(inflight: map<nat, Mutation>, e: Entry) {
    e.ticket in inflight && inflight[e.ticket].key == e.key && !inflight[e.ticket].applied
  }

  ghost predicate Mutating(n: Node) {
    && Ticketed(n.log, n.inflight, n.tickets)
    && Visible(n.log, n.inflight, n.tickets, n.live.index)
    && Visible(n.log, n.inflight, n.tickets, n.live.mined)
    && Visible(n.log, n.inflight, n.tickets, n.live.data)
  }

  lemma KeepsTicketed(n: Node, step: Step)
    requires n.shards > 0 && Legal(n, step) && !step.Restart? && Ticketed(n.log, n.inflight, n.tickets)
    ensures var n' := Next(n, step); Ticketed(n'.log, n'.inflight, n'.tickets)
  {
    hide AllShards, ShardOf, Shard, Recovered, Upsert;
  }

  /** One live store before and after a step. */
  ghost predicate Moves(n: Node, step: Step, s: Store, s': Store)
    requires n.shards > 0 && Legal(n, step)
  {
    !step.Restart? && s' == if step.Apply? then s[n.inflight[step.t].key := step.t] else s
  }

  lemma KeepsVisible(n: Node, step: Step, s: Store, s': Store)
    requires n.shards > 0 && Legal(n, step) && Ticketed(n.log, n.inflight, n.tickets)
    requires Visible(n.log, n.inflight, n.tickets, s) && Moves(n, step, s, s')
    ensures var n' := Next(n, step); Visible(n'.log, n'.inflight, n'.tickets, s')
  {
    hide AllShards, ShardOf, Shard, Recovered, Upsert, Visible, Ticketed;
    match step
    case Begin(key) => VisibleBegin(n.log, n.inflight, n.tickets, s, key);
    case Append(t) => VisibleAppend(n.log, n.inflight, n.tickets, s, t);
    case Apply(t) => VisibleApply(n.log, n.inflight, n.tickets, s, t);
    case Finish(t) => VisibleEnd(n.log, n.inflight, n.tickets, s, t);
    case Abort(t) => VisibleEnd(n.log, n.inflight, n.tickets, s, t);
    case _ =>
  }

  lemma VisibleBegin(log: seq<Entry>, inflight: map<nat, Mutation>, tickets: nat, s: Store, key: nat)
    requires Ticketed(log, inflight, tickets) && Visible(log, inflight, tickets, s)
    ensures Visible(log, inflight[tickets := Mutation(key, false, false)], tickets + 1, s)
  {
  }

  lemma VisibleAppend(log: seq<Entry>, inflight: map<nat, Mutation>, tickets: nat, s: Store, t: nat)
    requires Visible(log, inflight, tickets, s) && t in inflight
    ensures var m := inflight[t];
            Visible(log + [Entry(m.key, t)], inflight[t := m.(appended := true)], tickets, s)
  {
    var m := inflight[t];
    var log', inflight' := log + [Entry(m.key, t)], inflight[t := m.(appended := true)];
    assert Current(s, t, m);
    forall i | 0 <= i < |log'| ensures Reflects(s, log'[i]) || Pending(inflight', log'[i]) {
      if i < |log| { assert Reflects(s, log[i]) || Pending(inflight, log[i]); }
    }
  }

  lemma VisibleApply(log: seq<Entry>, inflight: map<nat, Mutation>, tickets: nat, s: Store, t: nat)
    requires Ticketed(log, inflight, tickets) && Visible(log, inflight, tickets, s) && t in inflight && !inflight[t].applied
    ensures var m := inflight[t]; Visible(log, inflight[t := m.(applied := true)], tickets, s[m.key := t])
  {
    hide Ordered;
    assert Current(s, t, inflight[t]);
  }

  lemma VisibleEnd(log: seq<Entry>, inflight: map<nat, Mutation>, tickets: nat, s: Store, t: nat)
    requires Ticketed(log, inflight, tickets) && Visible(log, inflight, tickets, s) && t in inflight
    requires inflight[t].appended == inflight[t].applied
    ensures Visible(log, inflight - {t}, tickets, s)
  {
    hide Ordered;
  }

  /** What readers see never goes back. */
  lemma LiveCovers(n: Node, step: Step, s: Store, s': Store, f: nat)
    requires n.shards > 0 && Legal(n, step) && Visible(n.log, n.inflight, n.tickets, s) && Moves(n, step, s, s')
    requires f <= |n.log| && Covers(s, n.log, f)
    ensures n.log <= Next(n, step).log && Covers(s', Next(n, step).log, f)
  {
    LogGrows(n, step);
    hide Next;
    if step.Apply? { assert Current(s, step.t, n.inflight[step.t]); }
    forall i | 0 <= i < f ensures Reflects(s', n.log[i]) {
      assert Reflects(s, n.log[i]);
    }
  }

  lemma LogGrows(n: Node, step: Step)
    requires n.shards > 0 && Legal(n, step)
    ensures Next(n, step).shards == n.shards && (!step.Restart? ==> n.log <= Next(n, step).log)
  {
    hide AllShards, ShardOf, Shard;
  }

  // ----- what every step keeps: durable state -----

  /** Each durable store covers its fence, and the fences are ordered. */
  ghost predicate Stores(n: Node) {
    && n.reclaimed <= n.fence <= n.minedFence <= |n.log| && n.fence <= n.durable <= |n.log|
    && Covers(n.snapshot, n.log, n.fence) && Covers(n.mined, n.log, n.minedFence) && Covers(n.synced, n.log, n.fence)
    && Bounded(n.snapshot, n.tickets) && Bounded(n.mined, n.tickets)
  }

  /** What a running checkpoint has established so far. */
  ghost predicate Progress(n: Node)
    requires n.shards > 0
  {
    n.checkpoint.Running? ==>
      var c := n.checkpoint;
      && n.minedFence <= c.fence <= |n.log|
      && CoversLive(n.live, n.log, c.fence)
      && (c.blocking ==> n.inflight == map[] && |n.log| == c.fence)
      && StageOk(n, c.fence, c.stage)
  }

  ghost predicate CoversLive(l: Live, log: seq<Entry>, f: nat)
    requires f <= |log|
  {
    Covers(l.index, log, f) && Covers(l.mined, log, f) && Covers(l.data, log, f)
  }

  ghost predicate StageOk(n: Node, f: nat, stage: Stage)
    requires n.shards > 0 && f <= |n.log|
  {
    match stage
    case Capturing(taken, done) => CoversShards(taken, n.log, f, n.shards, done) && Bounded(taken, n.tickets)
    case CapturingMined(taken, done) =>
      && Covers(n.snapshot, n.log, f) && CoversShards(taken, n.log, f, n.shards, done) && Bounded(taken, n.tickets)
    case Flushing => Covers(n.snapshot, n.log, f) && n.minedFence == f
    case Syncing => Covers(n.snapshot, n.log, f) && n.minedFence == f && f <= n.durable
    case Fencing => Covers(n.snapshot, n.log, f) && n.minedFence == f && f <= n.durable && Covers(n.synced, n.log, f)
    case Reclaiming => n.fence == f
  }

  ghost predicate Inv(n: Node) {
    n.shards > 0 && Mutating(n) && Stores(n) && Progress(n)
  }

  lemma CoversLess(s: Store, log: seq<Entry>, log': seq<Entry>, f: nat, g: nat)
    requires g <= f <= |log| && g <= |log'| && log[..g] == log'[..g] && Covers(s, log, f)
    ensures Covers(s, log', g)
  {
    forall i | 0 <= i < g ensures Reflects(s, log'[i]) {
      assert log'[i] == log'[..g][i] == log[..g][i] == log[i];
    }
  }

  /** Once all shards are captured the snapshot covers the fence. */
  lemma Captured(s: Store, log: seq<Entry>, f: nat, shards: nat, done: set<nat>)
    requires f <= |log| && shards > 0 && CoversShards(s, log, f, shards, done) && AllShards(shards, done)
    ensures Covers(s, log, f)
  {
    forall i | 0 <= i < f ensures Reflects(s, log[i]) {
      assert ShardOf(log[i].key, shards) in done;
    }
  }

  /** A shard captured now covers the fence, because everything up to the fence is visible. */
  lemma CaptureShard(live: Store, taken: Store, log: seq<Entry>, f: nat, shards: nat, done: set<nat>, i: nat)
    requires f <= |log| && shards > 0 && Covers(live, log, f) && CoversShards(taken, log, f, shards, done)
    ensures CoversShards(taken + Shard(live, shards, i), log, f, shards, done + {i})
  {
    hide ShardOf;
    forall j | 0 <= j < f && ShardOf(log[j].key, shards) in done + {i}
      ensures Reflects(taken + Shard(live, shards, i), log[j])
    {
      assert Reflects(live, log[j]);
    }
  }

  lemma CaptureBounded(live: Store, taken: Store, shards: nat, i: nat, tickets: nat)
    requires shards > 0 && Bounded(live, tickets) && Bounded(taken, tickets)
    ensures Bounded(taken + Shard(live, shards, i), tickets)
  {
    hide ShardOf;
  }

  lemma KeepsStores(n: Node, step: Step)
    requires Inv(n) && Legal(n, step) && !step.Restart?
    ensures Stores(Next(n, step))
  {
    hide Covers, CoversShards, AllShards, Mutating, Shard, Recovered, Upsert, CoversLive, Bounded;
    var c, n' := n.checkpoint, Next(n, step);
    LogGrows(n, step);
    TicketsGrow(n, step);
    CoversLess(n.snapshot, n.log, n'.log, n.fence, n.fence);
    CoversLess(n.mined, n.log, n'.log, n.minedFence, n.minedFence);
    CoversLess(n.synced, n.log, n'.log, n.fence, n.fence);
    BoundedMore(n.snapshot, n.tickets, n'.tickets);
    BoundedMore(n.mined, n.tickets, n'.tickets);
    LiveCoversAll(n);
    match step
    case Publish =>
      Captured(c.stage.taken, n.log, c.fence, n.shards, c.stage.done);
      CoversLess(c.stage.taken, n.log, n.log, c.fence, n.fence);
    case PublishMined => Captured(c.stage.taken, n.log, c.fence, n.shards, c.stage.done);
    case SyncDevices => CoversLess(n.live.data, n.log, n.log, c.fence, n.fence);
    case _ =>
  }

  lemma BoundedMore(s: Store, tickets: nat, tickets': nat)
    requires Bounded(s, tickets) && tickets <= tickets'
    ensures Bounded(s, tickets')
  {
  }

  lemma TicketsGrow(n: Node, step: Step)
    requires n.shards > 0 && Legal(n, step)
    ensures n.tickets <= Next(n, step).tickets
  {
    hide AllShards, ShardOf, Shard;
  }

  lemma LiveCoversAll(n: Node)
    requires Inv(n)
    ensures n.checkpoint.Running? ==>
              Covers(n.live.index, n.log, n.checkpoint.fence) && Covers(n.live.mined, n.log, n.checkpoint.fence) &&
              Covers(n.live.data, n.log, n.checkpoint.fence)
    ensures Bounded(n.live.index, n.tickets) && Bounded(n.live.mined, n.tickets) && Bounded(n.live.data, n.tickets)
  {
  }

  /** At the moment the fence is sampled, everything up to it has been applied. */
  lemma FenceSample(n: Node, blocking: bool)
    requires Inv(n) && Legal(n, Start(blocking))
    ensures CoversLive(n.live, n.log, |n.log|) && Next(n, Start(blocking)).checkpoint.fence == |n.log|
  {
    forall i | 0 <= i < |n.log|
      ensures Reflects(n.live.index, n.log[i]) && Reflects(n.live.mined, n.log[i]) && Reflects(n.live.data, n.log[i])
    {
      assert !Pending(n.inflight, n.log[i]);
    }
  }

  lemma KeepsProgress(n: Node, step: Step)
    requires Inv(n) && Legal(n, step) && !step.Restart?
    ensures Progress(Next(n, step))
  {
    hide AllShards, Shard, Ticketed, Visible, Covers, CoversShards, Recovered, StageOk;
    var c, n' := n.checkpoint, Next(n, step);
    LogGrows(n, step);
    if step.Start? {
      FenceSample(n, step.blocking);
      StartStage(n, step.blocking);
    } else if c.Running? && n'.checkpoint.Running? {
      LiveCovers(n, step, n.live.index, n'.live.index, c.fence);
      LiveCovers(n, step, n.live.mined, n'.live.mined, c.fence);
      LiveCovers(n, step, n.live.data, n'.live.data, c.fence);
      StageMoves(n, step);
      if c.blocking { QuietWhileBlocking(n, step); }
    }
  }

  lemma StartStage(n: Node, blocking: bool)
    requires n.shards > 0 && Legal(n, Start(blocking))
    ensures var n' := Next(n, Start(blocking)); StageOk(n', |n.log|, n'.checkpoint.stage)
  {
  }

  /** While a blocking checkpoint holds the barrier nothing is appended. */
  lemma QuietWhileBlocking(n: Node, step: Step)
    requires Inv(n) && Legal(n, step) && !step.Restart? && n.checkpoint.Running? && n.checkpoint.blocking
    ensures Next(n, step).inflight == map[] && Next(n, step).log == n.log
  {
    hide Mutating, Stores, AllShards, Shard, Covers, CoversLive, StageOk;
  }

  lemma StageMoves(n: Node, step: Step)
    requires Inv(n) && Legal(n, step) && !step.Restart? && n.checkpoint.Running? && Next(n, step).checkpoint.Running?
    ensures var c := n.checkpoint; var n' := Next(n, step);
            && n'.checkpoint.fence == c.fence && n'.checkpoint.blocking == c.blocking
            && c.fence <= |n'.log| && n'.minedFence <= c.fence && StageOk(n', c.fence, n'.checkpoint.stage)
  {
    hide Mutating, AllShards, Shard, Covers, CoversShards, CoversLive, Bounded, Recovered, Upsert;
    var c, n' := n.checkpoint, Next(n, step);
    LogGrows(n, step);
    TicketsGrow(n, step);
    StageLonger(n, n'.log, n'.tickets);
    LiveCoversAll(n);
    match step
    case Capture(i) =>
      CaptureShard(n.live.index, c.stage.taken, n.log, c.fence, n.shards, c.stage.done, i);
      CaptureBounded(n.live.index, c.stage.taken, n.shards, i, n.tickets);
    case CaptureMined(i) =>
      CaptureShard(n.live.mined, c.stage.taken, n.log, c.fence, n.shards, c.stage.done, i);
      CaptureBounded(n.live.mined, c.stage.taken, n.shards, i, n.tickets);
    case Publish =>
      Captured(c.stage.taken, n.log, c.fence, n.shards, c.stage.done);
      NoShards(n.log, c.fence, n.shards, n.tickets);
    case _ =>
  }

  lemma NoShards(log: seq<Entry>, f: nat, shards: nat, tickets: nat)
    requires f <= |log| && shards > 0
    ensures CoversShards(map[], log, f, shards, {}) && Bounded(map[], tickets)
  {
  }

  /** Appending entries does not concern a stage. */
  lemma StageLonger(n: Node, log': seq<Entry>, tickets': nat)
    requires n.shards > 0 && n.log <= log' && n.checkpoint.Running? && n.checkpoint.fence <= |n.log|
    requires StageOk(n, n.checkpoint.fence, n.checkpoint.stage) && n.tickets <= tickets'
    ensures StageOk(n.(log := log', tickets := tickets'), n.checkpoint.fence, n.checkpoint.stage)
  {
    hide ShardOf;
  }

  // ----- restarts -----

  lemma {:induction false} ReplayBounded(s: Store, entries: seq<Entry>, tickets: nat)
    requires Bounded(s, tickets) && forall i :: 0 <= i < |entries| ==> entries[i].ticket < tickets
    ensures Bounded(Replay(s, entries), tickets)
  {
    if entries != [] { ReplayBounded(s, entries[..|entries| - 1], tickets); }
  }

  /** A recovered store shows every durable mutation. */
  lemma RecoveredStore(s: Store, log: seq<Entry>, f: nat, durable: nat, tickets: nat)
    requires f <= |log| && durable <= |log| && Covers(s, log, f) && Ticketed(log, map[], tickets) && Bounded(s, tickets)
    ensures Covers(Replay(s, Tail(log, f, durable)), log, durable)
    ensures Visible(log[..durable], map[], tickets, Replay(s, Tail(log, f, durable)))
  {
    ReplayCovers(s, log, f, durable);
    ReplayBounded(s, Tail(log, f, durable), tickets);
    var r := Replay(s, Tail(log, f, durable));
    forall i | 0 <= i < durable ensures Reflects(r, log[..durable][i]) { assert Reflects(r, log[i]); }
  }

  /** A node may restart when the mined snapshot's fence is not beyond the durable log. */
  predicate SafeRestart(n: Node) {
    n.minedFence <= n.durable
  }

  lemma RestartInv(n: Node, left: Store)
    requires Inv(n) && Legal(n, Restart(left)) && SafeRestart(n)
    ensures Inv(Next(n, Restart(left)))
  {
    hide Covers, Ticketed, Visible, Bounded, Survives, Replay, Progress;
    var log' := n.log[..n.durable];
    SurvivorCovers(n, left);
    NothingInFlight(n.log, n.inflight, n.tickets, n.durable);
    RecoveredStore(n.snapshot, n.log, n.fence, n.durable, n.tickets);
    RecoveredStore(n.mined, n.log, n.minedFence, n.durable, n.tickets);
    RecoveredStore(left, n.log, n.fence, n.durable, n.tickets);
    CoversLess(n.snapshot, n.log, log', n.fence, n.fence);
    CoversLess(n.mined, n.log, log', n.minedFence, n.minedFence);
    CoversLess(left, n.log, log', n.fence, n.fence);
    NoProgress(Next(n, Restart(left)));
  }

  lemma NoProgress(n: Node)
    requires n.shards > 0 && n.checkpoint.Idle?
    ensures Progress(n)
  {
  }

  lemma SurvivorCovers(n: Node, left: Store)
    requires Stores(n) && Survives(n.synced, left)
    ensures Covers(left, n.log, n.fence)
  {
    forall j | 0 <= j < n.fence ensures Reflects(left, n.log[j]) { assert Reflects(n.synced, n.log[j]); }
  }

  lemma NothingInFlight(log: seq<Entry>, inflight: map<nat, Mutation>, tickets: nat, durable: nat)
    requires Ticketed(log, inflight, tickets) && durable <= |log|
    ensures Ticketed(log, map[], tickets) && Ticketed(log[..durable], map[], tickets)
  {
  }

  /** Every step of every interleaving keeps the invariant, restarts included as long as they are safe. */
  lemma KeepsInv(n: Node, step: Step)
    requires Inv(n) && Legal(n, step) && (step.Restart? ==> SafeRestart(n))
    ensures Inv(Next(n, step))
  {
    hide Mutating, Stores, Progress, Next, Legal;
    if step.Restart? {
      RestartInv(n, step.left);
    } else {
      KeepsMutating(n, step);
      LogGrows(n, step);
      KeepsStores(n, step);
      KeepsProgress(n, step);
    }
  }

  lemma KeepsMutating(n: Node, step: Step)
    requires n.shards > 0 && Mutating(n) && Legal(n, step) && !step.Restart?
    ensures Mutating(Next(n, step))
  {
    hide Ticketed, Visible, AllShards, Shard, Recovered;
    var n' := Next(n, step);
    KeepsTicketed(n, step);
    KeepsVisible(n, step, n.live.index, n'.live.index);
    KeepsVisible(n, step, n.live.mined, n'.live.mined);
    KeepsVisible(n, step, n.live.data, n'.live.data);
  }

  // ----- runs -----

  /** A node with an empty log. */
  function Fresh(shards: nat): Node {
    Node(shards, [], map[], 0, Live(map[], map[], map[]), 0, 0, 0, map[], map[], 0, map[], Idle)
  }

  ghost predicate IsRun(nodes: seq<Node>, steps: seq<Step>) {
    && |nodes| == |steps| + 1
    && nodes[0].shards > 0 && nodes[0] == Fresh(nodes[0].shards)
    && forall i :: 0 <= i < |steps| ==> StepAt(nodes, steps, i)
  }

  ghost predicate StepAt(nodes: seq<Node>, steps: seq<Step>, i: nat)
    requires i < |steps| && |nodes| == |steps| + 1
  {
    nodes[i].shards > 0 && Legal(nodes[i], steps[i]) && nodes[i + 1] == Next(nodes[i], steps[i])
  }

  /** Every restart among the first `n` steps was safe. */
  ghost predicate RestartsSafe(nodes: seq<Node>, steps: seq<Step>, n: nat)
    requires n <= |steps| <= |nodes|
  {
    forall i :: 0 <= i < n && steps[i].Restart? ==> SafeRestart(nodes[i])
  }

  lemma {:induction false} RunInv(nodes: seq<Node>, steps: seq<Step>, i: nat)
    requires IsRun(nodes, steps) && i <= |steps| && RestartsSafe(nodes, steps, i)
    ensures Inv(nodes[i])
  {
    if i == 0 {
      assert Inv(Fresh(nodes[0].shards));
    } else {
      hide Inv, Next, Legal, SafeRestart;
      RunInv(nodes, steps, i - 1);
      assert StepAt(nodes, steps, i - 1);
      KeepsInv(nodes[i - 1], steps[i - 1]);
    }
  }

  /** Crash safety: whenever the node crashes, whatever the device kept beyond its last sync, the index snapshot, the
      mined snapshot and the device, each with the durable entries above its fence replayed, are no older than the
      newest durable mutation of every key. */
  lemma CrashRecovery(nodes: seq<Node>, steps: seq<Step>, i: nat, left: Store)
    requires IsRun(nodes, steps) && i <= |steps| && RestartsSafe(nodes, steps, i) && Survives(nodes[i].synced, left)
    ensures var n := nodes[i];
            && n.durable <= |n.log|
            && Covers(Replay(n.snapshot, Tail(n.log, n.fence, n.durable)), n.log, n.durable)
            && Covers(Replay(n.mined, Tail(n.log, n.minedFence, n.durable)), n.log, n.durable)
            && Covers(Replay(left, Tail(n.log, n.fence, n.durable)), n.log, n.durable)
  {
    RunInv(nodes, steps, i);
    hide Covers, Survives, Replay;
    var n := nodes[i];
    SurvivorCovers(n, left);
    ReplayCovers(n.snapshot, n.log, n.fence, n.durable);
    ReplayCovers(n.mined, n.log, n.minedFence, n.durable);
    ReplayCovers(left, n.log, n.fence, n.durable);
  }

  /** Fence ordering: at every crash point what was reclaimed is below the redo fence, which is below the mined
      snapshot's fence and the durable end, so recovery never needs a reclaimed entry; and everything up to the fence
      of a running checkpoint was applied before its snapshot began. */
  lemma FenceOrdering(nodes: seq<Node>, steps: seq<Step>, i: nat)
    requires IsRun(nodes, steps) && i <= |steps| && RestartsSafe(nodes, steps, i)
    ensures var n := nodes[i];
            && n.reclaimed <= n.fence <= n.minedFence <= |n.log| && n.fence <= n.durable <= |n.log|
            && (n.checkpoint.Running? ==> n.checkpoint.fence <= |n.log| && CoversLive(n.live, n.log, n.checkpoint.fence))
  {
    RunInv(nodes, steps, i);
  }

  /** Only a checkpoint that got as far as its fence touches the redo log: one that fails before leaves it as it was. */
  lemma {:induction false} UnfencedKeepsLog(nodes: seq<Node>, steps: seq<Step>, i: nat, j: nat)
    requires IsRun(nodes, steps) && i <= j <= |steps| && !AtReclaim(nodes[i])
    requires forall m :: i <= m < j ==> !steps[m].WriteFence?
    ensures nodes[j].fence == nodes[i].fence && nodes[j].reclaimed == nodes[i].reclaimed && !AtReclaim(nodes[j])
  {
    hide Fresh, Next, Legal, AtReclaim;
    if i < j {
      UnfencedKeepsLog(nodes, steps, i, j - 1);
      assert StepAt(nodes, steps, j - 1);
      UnfencedStep(nodes[j - 1], steps[j - 1]);
    }
  }

  lemma UnfencedStep(n: Node, step: Step)
    requires n.shards > 0 && Legal(n, step) && !AtReclaim(n) && !step.WriteFence?
    ensures var n' := Next(n, step); n'.fence == n.fence && n'.reclaimed == n.reclaimed && !AtReclaim(n')
  {
    hide AllShards, Shard, ShardOf, Upsert;
  }

  predicate AtReclaim(n: Node) {
    n.checkpoint.Running? && n.checkpoint.stage.Reclaiming?
  }

  /** A blocking checkpoint covers the whole log: when it reclaims, nothing is left to replay. */
  lemma BlockingDrains(nodes: seq<Node>, steps: seq<Step>, i: nat)
    requires IsRun(nodes, steps) && i < |steps| && RestartsSafe(nodes, steps, i) && steps[i].Reclaim?
    requires nodes[i].checkpoint.Running? && nodes[i].checkpoint.blocking
    ensures nodes[i + 1].reclaimed == |nodes[i + 1].log| == nodes[i + 1].durable
    ensures nodes[i + 1].inflight == map[] && Tail(nodes[i + 1].log, nodes[i + 1].fence, nodes[i + 1].durable) == []
  {
    RunInv(nodes, steps, i);
    assert StepAt(nodes, steps, i);
  }

  // ----- what a checkpoint leaves behind, exactly -----

  /** Which step can change what. */
  lemma OnlyBy(n: Node, step: Step)
    requires n.shards > 0 && Legal(n, step)
    ensures var n' := Next(n, step);
            && n'.shards == n.shards
            && (n'.snapshot != n.snapshot ==> step.Publish?)
            && (n'.mined != n.mined || n'.minedFence != n.minedFence ==> step.PublishMined?)
            && (n'.synced != n.synced ==> step.SyncDevices? || step.Restart?)
            && (n'.durable != n.durable ==> step.Harden? || step.FlushRedo?)
            && (n'.fence != n.fence ==> step.WriteFence?)
            && (n'.reclaimed != n.reclaimed ==> step.Reclaim?)
            && (n'.live != n.live ==> step.Apply? || step.Restart?)
            && (n'.log != n.log ==> step.Append? || step.Restart?)
            && (step.SyncDevices? ==> n'.synced == n'.live.data) && (step.FlushRedo? ==> n'.durable == |n'.log|)
            && (step.Harden? ==> n'.durable == step.n) && (step.Fail? || step.SkipReclaim? ==> n'.checkpoint.Idle?)
            && (step.Begin? ==> n'.inflight.Keys == n.inflight.Keys + {n.tickets})
            && (step.Finish? || step.Abort? ==> n'.inflight == n.inflight - {step.t})
            && (step.Append? || step.Apply? ==> n'.inflight.Keys == n.inflight.Keys)
  {
    hide AllShards, Shard, ShardOf, Upsert, Replay, Survives, Bounded;
  }

  /** A checkpoint that runs at node `m` was started by step `st` and has run ever since. */
  ghost predicate Since(nodes: seq<Node>, steps: seq<Step>, st: nat, m: nat)
    requires |nodes| == |steps| + 1
  {
    && st < m <= |steps| && steps[st].Start? && nodes[st].log <= nodes[m].log
    && forall l :: st < l <= m ==> nodes[l].checkpoint.Running? && nodes[l].checkpoint.fence == |nodes[st].log|
  }

  lemma {:induction false} Started(nodes: seq<Node>, steps: seq<Step>, m: nat) returns (st: nat)
    requires IsRun(nodes, steps) && m <= |steps| && nodes[m].checkpoint.Running?
    ensures Since(nodes, steps, st, m) && nodes[m].checkpoint.blocking == steps[st].blocking
    ensures AtReclaim(nodes[m]) ==> nodes[m].fence == |nodes[st].log|
  {
    hide Next, Legal, AtReclaim;
    assert m > 0;
    assert StepAt(nodes, steps, m - 1);
    RunningStep(nodes[m - 1], steps[m - 1]);
    if steps[m - 1].Start? {
      st := m - 1;
    } else {
      st := Started(nodes, steps, m - 1);
    }
  }

  lemma RunningStep(n: Node, step: Step)
    requires n.shards > 0 && Legal(n, step) && Next(n, step).checkpoint.Running?
    ensures var n' := Next(n, step);
            && n.log <= n'.log
            && if step.Start? then
                 n'.checkpoint.fence == |n.log| && n'.checkpoint.blocking == step.blocking && !AtReclaim(n')
               else
                 && n.checkpoint.Running? && n'.checkpoint.fence == n.checkpoint.fence
                 && n'.checkpoint.blocking == n.checkpoint.blocking
                 && (AtReclaim(n') ==> n'.fence == n'.checkpoint.fence || (AtReclaim(n) && n'.fence == n.fence))
  {
    hide AllShards, Shard, ShardOf, Upsert;
  }

  /** A checkpoint of either kind that reclaims has reclaimed exactly the log as it was at its start. */
  lemma ReclaimExact(nodes: seq<Node>, steps: seq<Step>, m: nat) returns (st: nat)
    requires IsRun(nodes, steps) && m < |steps| && steps[m].Reclaim?
    ensures Since(nodes, steps, st, m) && nodes[m + 1].checkpoint.Idle?
    ensures nodes[m + 1].reclaimed == nodes[m + 1].fence == |nodes[st].log| && nodes[st].log <= nodes[m + 1].log
  {
    assert StepAt(nodes, steps, m);
    st := Started(nodes, steps, m);
  }

  /** The mined snapshot carries the length of the log at the start of its checkpoint. */
  lemma MinedFenceExact(nodes: seq<Node>, steps: seq<Step>, m: nat) returns (st: nat)
    requires IsRun(nodes, steps) && m < |steps| && steps[m].PublishMined?
    ensures Since(nodes, steps, st, m) && nodes[m + 1].minedFence == |nodes[st].log|
  {
    assert StepAt(nodes, steps, m);
    st := Started(nodes, steps, m);
  }

  // The index snapshot (mined == false) and the mined snapshot (mined == true) are taken the same way.

  predicate Taking(n: Node, mined: bool) {
    n.checkpoint.Running? && if mined then n.checkpoint.stage.CapturingMined? else n.checkpoint.stage.Capturing?
  }

  function Source(n: Node, mined: bool): Store {
    if mined then n.live.mined else n.live.index
  }

  function Published(n: Node, mined: bool): Store {
    if mined then n.mined else n.snapshot
  }

  predicate Captures(step: Step, mined: bool, i: nat) {
    step == if mined then CaptureMined(i) else Capture(i)
  }

  /** Every key captured so far is still live. */
  ghost predicate Inside(n: Node, mined: bool) {
    Taking(n, mined) ==> n.checkpoint.stage.taken.Keys <= Source(n, mined).Keys
  }

  lemma InsideStep(n: Node, step: Step, mined: bool)
    requires n.shards > 0 && Legal(n, step) && Inside(n, mined)
    ensures Inside(Next(n, step), mined)
  {
    hide AllShards, ShardOf, Replay, Survives, Bounded;
  }

  lemma {:induction false} RunInside(nodes: seq<Node>, steps: seq<Step>, m: nat, mined: bool)
    requires IsRun(nodes, steps) && m <= |steps|
    ensures Inside(nodes[m], mined)
  {
    hide Next, Legal, Inside;
    if m == 0 {
      assert Inside(Fresh(nodes[0].shards), mined) by { FreshInside(nodes[0].shards, mined); }
    } else {
      RunInside(nodes, steps, m - 1, mined);
      assert StepAt(nodes, steps, m - 1);
      InsideStep(nodes[m - 1], steps[m - 1], mined);
    }
  }

  lemma FreshInside(shards: nat, mined: bool)
    ensures Inside(Fresh(shards), mined)
  {
  }

  /** One step while a snapshot is taken, or the step that begins it. */
  lemma TakingStep(n: Node, step: Step, mined: bool, i: nat)
    requires n.shards > 0 && Legal(n, step) && Taking(Next(n, step), mined) && Inside(n, mined)
    ensures var n' := Next(n, step); var taken, done := n'.checkpoint.stage.taken, n'.checkpoint.stage.done;
            && n'.shards == n.shards
            && if !Taking(n, mined) then taken == map[] && done == {}
               else if Captures(step, mined, i) then
                 i in done && Shard(taken, n.shards, i) == Shard(Source(n, mined), n.shards, i)
               else
                 && (i in done <==> i in n.checkpoint.stage.done)
                 && Shard(taken, n.shards, i) == Shard(n.checkpoint.stage.taken, n.shards, i)
  {
    hide AllShards, Shard, Upsert;
    if Taking(n, mined) && (step.Capture? || step.CaptureMined?) {
      CaptureOne(n.checkpoint.stage.taken, Source(n, mined), n.shards, step.shard, i);
    }
  }

  /** Capturing shard `c` leaves the others as they are and makes it what is live. */
  lemma CaptureOne(taken: Store, live: Store, shards: nat, c: nat, i: nat)
    requires shards > 0 && taken.Keys <= live.Keys
    ensures Shard(taken + Shard(live, shards, c), shards, i) ==
            if c == i then Shard(live, shards, i) else Shard(taken, shards, i)
  {
    hide ShardOf;
  }

  /** Shard `i` was last captured at node `j`, by this checkpoint. */
  ghost predicate CapturedAt(nodes: seq<Node>, steps: seq<Step>, j: nat, m: nat, mined: bool, i: nat)
    requires |nodes| == |steps| + 1
  {
    && j < m <= |steps| && Captures(steps[j], mined, i)
    && (forall l :: j < l < m ==> !Captures(steps[l], mined, i))
    && (forall l :: j <= l <= m ==> Taking(nodes[l], mined))
  }

  /** While a snapshot is taken, each shard it has is as it was where it was last captured. */
  lemma {:induction false} CaptureOrigin(nodes: seq<Node>, steps: seq<Step>, m: nat, mined: bool, i: nat) returns (j: nat)
    requires IsRun(nodes, steps) && m <= |steps| && Taking(nodes[m], mined) && i in nodes[m].checkpoint.stage.done
    ensures CapturedAt(nodes, steps, j, m, mined, i) && nodes[m].shards == nodes[j].shards > 0
    ensures Shard(nodes[m].checkpoint.stage.taken, nodes[m].shards, i) == Shard(Source(nodes[j], mined), nodes[m].shards, i)
  {
    hide Next, Legal, Shard, Captures, Source, Inside;
    assert m > 0;
    assert StepAt(nodes, steps, m - 1);
    RunInside(nodes, steps, m - 1, mined);
    TakingStep(nodes[m - 1], steps[m - 1], mined, i);
    if Captures(steps[m - 1], mined, i) {
      j := m - 1;
    } else {
      j := CaptureOrigin(nodes, steps, m - 1, mined, i);
    }
  }

  /** Store `s` has at `key` what the live store had where the key's shard was captured. */
  ghost predicate ComesFrom(nodes: seq<Node>, at: seq<nat>, s: Store, mined: bool, key: nat)
    requires |at| > 0
  {
    var j := at[ShardOf(key, |at|)];
    j < |nodes| && SameAt(s, Source(nodes[j], mined), key)
  }

  ghost predicate AllFrom(nodes: seq<Node>, at: seq<nat>, s: Store, mined: bool)
    requires |at| > 0
  {
    forall key: nat :: ComesFrom(nodes, at, s, mined, key)
  }

  /** What a published snapshot holds: for every shard, exactly the live store as it was where this checkpoint last
      captured the shard, and nothing else. */
  lemma SnapshotExact(nodes: seq<Node>, steps: seq<Step>, m: nat, mined: bool) returns (at: seq<nat>)
    requires IsRun(nodes, steps) && m < |steps| && steps[m] == if mined then PublishMined else Publish
    ensures nodes[m].shards > 0 && |at| == nodes[m].shards
    ensures forall i :: 0 <= i < |at| ==> CapturedAt(nodes, steps, at[i], m, mined, i)
    ensures AllFrom(nodes, at, Published(nodes[m + 1], mined), mined)
  {
    StepOf(nodes, steps, m);
    hide Shard, Next, Legal, CapturedAt, IsRun, Taking, Published, Source, SameAt, AllShards, StepAt;
    var n, p := nodes[m], Published(nodes[m + 1], mined);
    PublishStep(n, mined);
    at := Places(nodes, steps, m, mined, n.shards);
    forall key: nat ensures ComesFrom(nodes, at, p, mined, key) {
      assert PlaceOk(nodes, steps, m, mined, at, ShardOf(key, |at|));
      ShardAt(n.checkpoint.stage.taken, Source(nodes[at[ShardOf(key, |at|)]], mined), n.shards, key);
    }
    forall i | 0 <= i < |at| ensures CapturedAt(nodes, steps, at[i], m, mined, i) {
      assert PlaceOk(nodes, steps, m, mined, at, i);
    }
  }

  lemma StepOf(nodes: seq<Node>, steps: seq<Step>, i: nat)
    requires IsRun(nodes, steps) && i < |steps|
    ensures nodes[i].shards > 0 && Legal(nodes[i], steps[i]) && nodes[i + 1] == Next(nodes[i], steps[i])
  {
    hide Next, Legal, Fresh;
    assert StepAt(nodes, steps, i);
  }

  /** Shard `i` was last captured at node `at[i]`. */
  ghost predicate PlaceOk(nodes: seq<Node>, steps: seq<Step>, m: nat, mined: bool, at: seq<nat>, i: nat)
    requires |nodes| == |steps| + 1 && m < |nodes| && i < |at| && nodes[m].shards > 0 && Taking(nodes[m], mined)
  {
    && at[i] < |nodes| && CapturedAt(nodes, steps, at[i], m, mined, i)
    && Shard(nodes[m].checkpoint.stage.taken, nodes[m].shards, i) == Shard(Source(nodes[at[i]], mined), nodes[m].shards, i)
  }

  lemma {:induction false} Places(nodes: seq<Node>, steps: seq<Step>, m: nat, mined: bool, count: nat)
    returns (at: seq<nat>)
    requires IsRun(nodes, steps) && m <= |steps| && Taking(nodes[m], mined) && nodes[m].shards > 0
    requires count <= nodes[m].shards && AllShards(nodes[m].shards, nodes[m].checkpoint.stage.done)
    ensures |at| == count && forall i :: 0 <= i < count ==> PlaceOk(nodes, steps, m, mined, at, i)
  {
    hide Shard, CapturedAt, Taking, Source;
    if count == 0 {
      at := [];
    } else {
      var init := Places(nodes, steps, m, mined, count - 1);
      var j := CaptureOrigin(nodes, steps, m, mined, count - 1);
      CapturedBefore(nodes, steps, j, m, mined, count - 1);
      at := init + [j];
      forall i | 0 <= i < count ensures PlaceOk(nodes, steps, m, mined, at, i) {
        if i < count - 1 { assert PlaceOk(nodes, steps, m, mined, init, i); }
      }
    }
  }

  lemma CapturedBefore(nodes: seq<Node>, steps: seq<Step>, j: nat, m: nat, mined: bool, i: nat)
    requires |nodes| == |steps| + 1 && CapturedAt(nodes, steps, j, m, mined, i)
    ensures j < |nodes|
  {
  }

  lemma PublishStep(n: Node, mined: bool)
    requires n.shards > 0 && Legal(n, if mined then PublishMined else Publish)
    ensures Taking(n, mined) && AllShards(n.shards, n.checkpoint.stage.done)
    ensures Published(Next(n, if mined then PublishMined else Publish), mined) == n.checkpoint.stage.taken
  {
  }

  /** The two stores agree at `key`. */
  predicate SameAt(a: Store, b: Store, key: nat) {
    (key in a <==> key in b) && (key in a && key in b ==> a[key] == b[key])
  }

  lemma ShardAt(a: Store, b: Store, shards: nat, key: nat)
    requires shards > 0 && Shard(a, shards, ShardOf(key, shards)) == Shard(b, shards, ShardOf(key, shards))
    ensures SameAt(a, b, key)
  {
    var i := ShardOf(key, shards);
    var x, y := Shard(a, shards, i), Shard(b, shards, i);
    assert key in x <==> key in a;
    assert key in y <==> key in b;
  }

  // ----- a checkpoint that runs alone -----

  /** The steps lead from one node to the other. */
  ghost predicate Leads(n: Node, steps: seq<Step>, n': Node)
    decreases |steps|
  {
    if steps == [] then n' == n
    else n.shards > 0 && Legal(n, steps[0]) && Leads(Next(n, steps[0]), steps[1..], n')
  }

  lemma OneStep(n: Node, step: Step, n': Node)
    requires n.shards > 0 && Legal(n, step) && Next(n, step) == n'
    ensures Leads(n, [step], n')
  {
  }

  lemma {:induction false} LeadsOn(n: Node, steps: seq<Step>, mid: Node, more: seq<Step>, n': Node)
    requires Leads(n, steps, mid) && Leads(mid, more, n')
    ensures Leads(n, steps + more, n')
    decreases |steps|
  {
    hide Legal, Next;
    if steps == [] {
      assert steps + more == more;
    } else {
      LeadsOn(Next(n, steps[0]), steps[1..], mid, more, n');
      assert (steps + more)[1..] == steps[1..] + more;
    }
  }

  /** The part of a store in shards below `i`. */
  function Below(s: Store, shards: nat, i: nat): Store
    requires shards > 0
  {
    map k | k in s && ShardOf(k, shards) < i :: s[k]
  }

  function UpTo(i: nat): (s: set<nat>)
    ensures forall j :: 0 <= j < i ==> j in s
  {
    if i == 0 then {} else UpTo(i - 1) + {i - 1}
  }

  function WithStage(n: Node, fence: nat, blocking: bool, stage: Stage): Node {
    n.(checkpoint := Running(fence, blocking, stage))
  }

  function Partway(s: Store, shards: nat, i: nat, mined: bool): Stage
    requires shards > 0
  {
    var done := UpTo(i);
    if mined then CapturingMined(Below(s, shards, i), done) else Capturing(Below(s, shards, i), done)
  }

  /** Capturing every remaining shard, one after the other. */
  lemma {:induction false} CaptureRest(n: Node, f: nat, b: bool, mined: bool, i: nat) returns (steps: seq<Step>)
    requires n.shards > 0 && i <= n.shards
    ensures Leads(WithStage(n, f, b, Partway(Source(n, mined), n.shards, i, mined)), steps,
                  WithStage(n, f, b, Partway(Source(n, mined), n.shards, n.shards, mined)))
    decreases n.shards - i
  {
    if i == n.shards {
      steps := [];
    } else {
      var rest := CaptureRest(n, f, b, mined, i + 1);
      OneCapture(n, f, b, mined, i);
      steps := [if mined then CaptureMined(i) else Capture(i)] + rest;
      assert steps[1..] == rest;
    }
  }

  lemma OneCapture(n: Node, f: nat, b: bool, mined: bool, i: nat)
    requires n.shards > 0 && i < n.shards
    ensures var w := WithStage(n, f, b, Partway(Source(n, mined), n.shards, i, mined));
            var step := if mined then CaptureMined(i) else Capture(i);
            Legal(w, step) && Next(w, step) == WithStage(n, f, b, Partway(Source(n, mined), n.shards, i + 1, mined))
  {
    hide ShardOf;
    var s := Source(n, mined);
    assert Below(s, n.shards, i) + Shard(s, n.shards, i) == Below(s, n.shards, i + 1);
  }

  lemma WholeStore(s: Store, shards: nat, mined: bool)
    requires shards > 0
    ensures Partway(s, shards, shards, mined).taken == s && AllShards(shards, Partway(s, shards, shards, mined).done)
    ensures Partway(s, shards, 0, mined) == if mined then CapturingMined(map[], {}) else Capturing(map[], {})
    ensures Partway(s, shards, shards, mined).CapturingMined? == mined
  {
    assert Below(s, shards, shards) == s;
    assert Below(s, shards, 0) == map[];
  }

  /** What a checkpoint of a node that nobody mutates leaves: snapshots and devices equal to what readers see, and a log
      that is durable, fenced and reclaimed to its end. */
  function Settled(n: Node): Node {
    n.(durable := |n.log|, fence := |n.log|, reclaimed := |n.log|, snapshot := n.live.index, mined := n.live.mined,
       minedFence := |n.log|, synced := n.live.data, checkpoint := Idle)
  }

  /** A checkpoint of either kind can always be taken from a quiet node, and settles it. */
  lemma CheckpointAlone(n: Node, blocking: bool) returns (steps: seq<Step>)
    requires n.shards > 0 && n.checkpoint.Idle? && n.inflight == map[]
    ensures Leads(n, steps, Settled(n)) && |steps| > 0 && steps[0] == Start(blocking)
  {
    hide Leads, Partway;
    var f := |n.log|;
    WholeStore(n.live.index, n.shards, false);
    WholeStore(n.live.mined, n.shards, true);
    var p := n.(snapshot := n.live.index);
    var first := CaptureRest(n, f, blocking, false, 0);
    var second := CaptureRest(p, f, blocking, true, 0);
    BeginAlone(n, blocking);
    PublishAlone(n, blocking);
    FinishAlone(p, blocking);
    var mid := WithStage(n, f, blocking, Partway(n.live.index, n.shards, n.shards, false));
    var mid2 := WithStage(p, f, blocking, Partway(n.live.mined, n.shards, 0, true));
    var mid3 := WithStage(p, f, blocking, Partway(n.live.mined, n.shards, n.shards, true));
    LeadsOn(n, [Start(blocking)], WithStage(n, f, blocking, Partway(n.live.index, n.shards, 0, false)), first, mid);
    LeadsOn(n, [Start(blocking)] + first, mid, [Publish], mid2);
    LeadsOn(n, [Start(blocking)] + first + [Publish], mid2, second, mid3);
    var last := [PublishMined, FlushRedo, SyncDevices, WriteFence, Reclaim];
    LeadsOn(n, [Start(blocking)] + first + [Publish] + second, mid3, last, Settled(n));
    steps := [Start(blocking)] + first + [Publish] + second + last;
  }

  lemma BeginAlone(n: Node, blocking: bool)
    requires n.shards > 0 && n.checkpoint.Idle? && n.inflight == map[]
    ensures Leads(n, [Start(blocking)], WithStage(n, |n.log|, blocking, Partway(n.live.index, n.shards, 0, false)))
  {
    WholeStore(n.live.index, n.shards, false);
  }

  lemma PublishAlone(n: Node, blocking: bool)
    requires n.shards > 0
    ensures Leads(WithStage(n, |n.log|, blocking, Partway(n.live.index, n.shards, n.shards, false)), [Publish],
                  WithStage(n.(snapshot := n.live.index), |n.log|, blocking, Partway(n.live.mined, n.shards, 0, true)))
  {
    WholeStore(n.live.index, n.shards, false);
    WholeStore(n.live.mined, n.shards, true);
  }

  lemma FinishAlone(p: Node, blocking: bool)
    requires p.shards > 0 && p.snapshot == p.live.index
    ensures Leads(WithStage(p, |p.log|, blocking, Partway(p.live.mined, p.shards, p.shards, true)),
                  [PublishMined, FlushRedo, SyncDevices, WriteFence, Reclaim], Settled(p))
  {
    hide Partway, Leads, Next, Legal;
    var f := |p.log|;
    var n0 := WithStage(p, f, blocking, Partway(p.live.mined, p.shards, p.shards, true));
    var p1 := p.(mined := p.live.mined, minedFence := f);
    var p2 := p1.(durable := f);
    var p3 := p2.(synced := p.live.data);
    PublishMinedAlone(p, f, blocking);
    FlushAlone(p1, f, blocking);
    SyncAlone(p2, f, blocking);
    FenceAlone(p3, f, blocking);
    ReclaimAlone(p3.(fence := f), f, blocking);
    var last := [FlushRedo] + ([SyncDevices] + ([WriteFence] + [Reclaim]));
    LeadsOn(WithStage(p3, f, blocking, Fencing), [WriteFence], WithStage(p3.(fence := f), f, blocking, Reclaiming),
            [Reclaim], Settled(p));
    LeadsOn(WithStage(p2, f, blocking, Syncing), [SyncDevices], WithStage(p3, f, blocking, Fencing),
            [WriteFence] + [Reclaim], Settled(p));
    LeadsOn(WithStage(p1, f, blocking, Flushing), [FlushRedo], WithStage(p2, f, blocking, Syncing),
            [SyncDevices] + ([WriteFence] + [Reclaim]), Settled(p));
    LeadsOn(n0, [PublishMined], WithStage(p1, f, blocking, Flushing), last, Settled(p));
    assert [PublishMined] + last == [PublishMined, FlushRedo, SyncDevices, WriteFence, Reclaim];
  }

  lemma PublishMinedAlone(p: Node, f: nat, b: bool)
    requires p.shards > 0
    ensures Leads(WithStage(p, f, b, Partway(p.live.mined, p.shards, p.shards, true)), [PublishMined],
                  WithStage(p.(mined := p.live.mined, minedFence := f), f, b, Flushing))
  {
    hide Partway;
    WholeStore(p.live.mined, p.shards, true);
  }

  // The steps after the snapshots, each from any node that is ready for it.

  lemma FlushAlone(p: Node, f: nat, b: bool)
    requires p.shards > 0
    ensures Leads(WithStage(p, f, b, Flushing), [FlushRedo],
                  WithStage(p.(durable := |p.log|), f, b, Syncing))
  {
    OneStep(WithStage(p, f, b, Flushing), FlushRedo, WithStage(p.(durable := |p.log|), f, b, Syncing));
  }

  lemma SyncAlone(p: Node, f: nat, b: bool)
    requires p.shards > 0
    ensures Leads(WithStage(p, f, b, Syncing), [SyncDevices],
                  WithStage(p.(synced := p.live.data), f, b, Fencing))
  {
    OneStep(WithStage(p, f, b, Syncing), SyncDevices, WithStage(p.(synced := p.live.data), f, b, Fencing));
  }

  lemma FenceAlone(p: Node, f: nat, b: bool)
    requires p.shards > 0
    ensures Leads(WithStage(p, f, b, Fencing), [WriteFence],
                  WithStage(p.(fence := f), f, b, Reclaiming))
  {
    OneStep(WithStage(p, f, b, Fencing), WriteFence, WithStage(p.(fence := f), f, b, Reclaiming));
  }

  lemma ReclaimAlone(p: Node, f: nat, b: bool)
    requires p.shards > 0
    ensures Leads(WithStage(p, f, b, Reclaiming), [Reclaim],
                  p.(reclaimed := f, checkpoint := Idle))
  {
    OneStep(WithStage(p, f, b, Reclaiming), Reclaim, p.(reclaimed := f, checkpoint := Idle));
  }

  // ----- what a restart shows, exactly -----

  /** Store `r` at `key`: the newest durable entry above the fence, else what `s` has. */
  ghost predicate ReplayedAt(s: Store, r: Store, log: seq<Entry>, f: nat, durable: nat, key: nat)
    requires durable <= |log|
  {
    if exists i :: f <= i < durable && log[i].key == key
    then exists i :: f <= i < durable && NewestAt(log, i, durable, key) && key in r && r[key] == log[i].ticket
    else SameAt(r, s, key)
  }

  lemma TailAt(s: Store, log: seq<Entry>, f: nat, durable: nat, key: nat)
    requires durable <= |log|
    ensures ReplayedAt(s, Replay(s, Tail(log, f, durable)), log, f, durable, key)
  {
    if f <= durable { ReplayExact(s, log, f, durable, key); }
  }

  /** After a restart each store shows, per key, the newest durable entry above its own fence, and without one what its
      snapshot or device held. The log keeps its durable entries, and nothing is in flight. */
  lemma RestartShows(nodes: seq<Node>, steps: seq<Step>, m: nat, key: nat)
    requires IsRun(nodes, steps) && m < |steps| && steps[m].Restart?
    ensures var n, n' := nodes[m], nodes[m + 1];
            && n.durable <= |n.log| && n'.log == n.log[..n.durable] && n'.inflight == map[] && n'.checkpoint.Idle?
            && n'.synced == steps[m].left
            && ReplayedAt(n.snapshot, n'.live.index, n.log, n.fence, n.durable, key)
            && ReplayedAt(n.mined, n'.live.mined, n.log, n.minedFence, n.durable, key)
            && ReplayedAt(steps[m].left, n'.live.data, n.log, n.fence, n.durable, key)
  {
    hide ReplayedAt, Replay, Survives, Bounded;
    assert StepAt(nodes, steps, m);
    var n := nodes[m];
    TailAt(n.snapshot, n.log, n.fence, n.durable, key);
    TailAt(n.mined, n.log, n.minedFence, n.durable, key);
    TailAt(steps[m].left, n.log, n.fence, n.durable, key);
  }

  // ----- restarts, exactly -----

  /** The node after one more mutation, begun, journaled, applied, finished and hardened. */
  function OneMore(n: Node, key: nat): Node
    requires n.inflight == map[] && n.checkpoint.Idle? && n.shards > 0 && n.durable == |n.log|
  {
    var t := n.tickets;
    var n1 := Next(n, Begin(key));
    var n2 := Next(n1, Append(t));
    var n3 := Next(n2, Apply(t));
    var n4 := Next(n3, Finish(t));
    Next(n4, Harden(|n.log| + 1))
  }

  /** The mined index would recover every durable mutation. */
  ghost predicate MinedRecovers(n: Node) {
    n.durable <= |n.log| && Covers(Replay(n.mined, Tail(n.log, n.minedFence, n.durable)), n.log, n.durable)
  }

  lemma OneMoreInv(n: Node, key: nat)
    requires Inv(n) && n.shards > 0 && n.inflight == map[] && n.checkpoint.Idle? && n.durable == |n.log|
    ensures MinedRecovers(OneMore(n, key))
  {
    hide Inv, Recovered, AllShards, Shard, Survives, Bounded, MinedRecovers;
    var t := n.tickets;
    var n1 := Next(n, Begin(key));
    var n2 := Next(n1, Append(t));
    var n3 := Next(n2, Apply(t));
    var n4 := Next(n3, Finish(t));
    KeepsInv(n, Begin(key));
    KeepsInv(n1, Append(t));
    KeepsInv(n2, Apply(t));
    KeepsInv(n3, Finish(t));
    KeepsInv(n4, Harden(|n.log| + 1));
    InvRecovers(OneMore(n, key));
  }

  lemma InvShards(n: Node)
    requires Inv(n)
    ensures n.shards > 0
  {
  }

  lemma InvRecovers(n: Node)
    requires Inv(n)
    ensures MinedRecovers(n)
  {
    ReplayCovers(n.mined, n.log, n.minedFence, n.durable);
  }

  /** Restarting while the mined snapshot's fence is beyond the durable log reuses sequence numbers the snapshot claims
      to cover. The next mutation of every key survives the next crash exactly when the restart was safe. */
  lemma RestartExact(n: Node, left: Store)
    requires Inv(n) && Legal(n, Restart(left))
    ensures SafeRestart(n) <==> forall key :: MinedRecovers(OneMore(Recovered(n, left), key))
  {
    var r := Recovered(n, left);
    if SafeRestart(n) {
      RestartInv(n, left);
      forall key ensures MinedRecovers(OneMore(r, key)) { OneMoreInv(r, key); }
    } else {
      var key := AbsentKey(n.mined);
      ReusedSequence(n, left, key);
    }
  }

  lemma AbsentKey(s: Store) returns (key: nat)
    ensures key !in s
  {
    if s.Keys == {} {
      key := 0;
    } else {
      var top := Prelude.GreatestNat(s.Keys);
      key := top + 1;
    }
  }

  lemma ReusedSequence(n: Node, left: Store, key: nat)
    requires Inv(n) && Legal(n, Restart(left)) && n.durable < n.minedFence && key !in n.mined
    ensures !MinedRecovers(OneMore(Recovered(n, left), key))
  {
    InvShards(n);
    hide Inv, AllShards, Shard;
    var r := Recovered(n, left);
    var m := OneMore(r, key);
    assert m.log == n.log[..n.durable] + [Entry(key, n.tickets)];
    assert m.durable == n.durable + 1 && m.minedFence == n.minedFence && m.mined == n.mined;
    assert Tail(m.log, m.minedFence, m.durable) == [];
    assert !Reflects(n.mined, m.log[n.durable]);
  }

  lemma Extend(nodes: seq<Node>, steps: seq<Step>, step: Step) returns (nodes': seq<Node>, steps': seq<Step>)
    requires IsRun(nodes, steps) && nodes[|steps|].shards > 0 && Legal(nodes[|steps|], step) && !step.Restart?
    requires RestartsSafe(nodes, steps, |steps|)
    ensures IsRun(nodes', steps') && RestartsSafe(nodes', steps', |steps'|)
    ensures nodes'[|steps'|] == Next(nodes[|steps|], step)
  {
    hide Next, Legal, Fresh, SafeRestart;
    nodes', steps' := nodes + [Next(nodes[|steps|], step)], steps + [step];
    forall i | 0 <= i < |steps'| ensures StepAt(nodes', steps', i) {
      if i < |steps| { assert StepAt(nodes, steps, i); }
    }
  }

  /** One mutation of key 0, acknowledged but not yet durable. */
  function Buffered(): Node {
    Node(1, [Entry(0, 0)], map[], 1, Live(map[0 := 0], map[0 := 0], map[0 := 0]), 0, 0, 0, map[], map[], 0, map[], Idle)
  }

  lemma BufferedReachable() returns (nodes: seq<Node>, steps: seq<Step>)
    ensures IsRun(nodes, steps) && RestartsSafe(nodes, steps, |steps|) && nodes[|steps|] == Buffered()
  {
    nodes, steps := [Fresh(1)], [];
    hide IsRun, RestartsSafe, Recovered, AllShards, Shard;
    nodes, steps := Extend(nodes, steps, Begin(0));
    nodes, steps := Extend(nodes, steps, Append(0));
    nodes, steps := Extend(nodes, steps, Apply(0));
    nodes, steps := Extend(nodes, steps, Finish(0));
  }

  /** Unsafe restarts are within reach: a mined snapshot is published before its entries are durable. */
  lemma UnsafeRestartReachable() returns (nodes: seq<Node>, steps: seq<Step>)
    ensures IsRun(nodes, steps) && RestartsSafe(nodes, steps, |steps|) && !SafeRestart(nodes[|steps|])
  {
    hide IsRun, RestartsSafe, Recovered, Shard;
    nodes, steps := BufferedReachable();
    nodes, steps := Extend(nodes, steps, Start(false));
    nodes, steps := Extend(nodes, steps, Capture(0));
    nodes, steps := Extend(nodes, steps, Publish);
    nodes, steps := Extend(nodes, steps, CaptureMined(0));
    nodes, steps := Extend(nodes, steps, PublishMined);
  }

  // ----- strict durability -----

  /** A mutation keeps the barrier until its entry is durable. */
  ghost predicate StrictStep(n: Node, step: Step) {
    step.Finish? ==> forall i :: 0 <= i < |n.log| && n.log[i].ticket == step.t ==> i < n.durable
  }

  ghost predicate Strict(n: Node) {
    && n.durable <= |n.log| && n.minedFence <= n.durable
    && (n.checkpoint.Running? ==> n.checkpoint.fence <= n.durable)
    && forall i :: n.durable <= i < |n.log| ==> n.log[i].ticket in n.inflight && n.inflight[n.log[i].ticket].appended
  }

  lemma KeepsStrict(n: Node, step: Step)
    requires Inv(n) && Legal(n, step) && Strict(n) && StrictStep(n, step)
    ensures Strict(Next(n, step))
  {
    hide AllShards, Shard, ShardOf, Upsert, Replay, Survives, Bounded, Stores, Progress, Visible;
    assert n.durable < |n.log| ==> n.log[n.durable].ticket in n.inflight;
  }

  ghost predicate StrictAt(nodes: seq<Node>, steps: seq<Step>, i: nat)
    requires i < |steps| <= |nodes|
  {
    StrictStep(nodes[i], steps[i])
  }

  /** Under strict durability every restart is safe, so a node survives any number of crashes. */
  lemma {:induction false} StrictRestarts(nodes: seq<Node>, steps: seq<Step>, n: nat)
    requires IsRun(nodes, steps) && n <= |steps| && forall i :: 0 <= i < n ==> StrictAt(nodes, steps, i)
    ensures Strict(nodes[n]) && SafeRestart(nodes[n]) && RestartsSafe(nodes, steps, n)
  {
    hide Next, Legal, StrictStep, Inv;
    if n > 0 {
      StrictRestarts(nodes, steps, n - 1);
      RunInv(nodes, steps, n - 1);
      assert StrictAt(nodes, steps, n - 1) && StepAt(nodes, steps, n - 1);
      KeepsStrict(nodes[n - 1], steps[n - 1]);
    }
  }
}
