/** The interface of the redo log that the allocator relies on. */
module Redo {
  import opened Prelude

  datatype RedoOp =
    | AllocateRegion(offset: nat, size: u64, deviceId: nat)
    | FreeRegion(offset: nat, size: u64, deviceId: nat)
    | OtherOp

  /** What the environment does to one append-and-flush. */
  datatype Fate = Durable | LogFull | FlushFails

  /** `entries` are durable. After a failed flush the log refuses further appends until a restart,
      and any prefix of `torn` may nevertheless be on disk. */
  datatype Log = Log(entries: seq<RedoOp>, torn: seq<RedoOp>, poisoned: bool)

  predicate Accepts(log: Log, fate: Fate) {
    !log.poisoned && fate.Durable?
  }

  function Append(log: Log, ops: seq<RedoOp>, fate: Fate): Log {
    if log.poisoned || fate.LogFull? then log
    else if fate.Durable? then log.(entries := log.entries + ops)
    else log.(torn := ops, poisoned := true)
  }

  // ----- what a sequence of appends leaves -----

  /** The log after the batches were appended in order, each with its fate. */
  function AppendAll(log: Log, batches: seq<(seq<RedoOp>, Fate)>): Log {
    if batches == [] then log
    else
      var n := |batches| - 1;
      Append(AppendAll(log, batches[..n]), batches[n].0, batches[n].1)
  }

  /** The batches that reached the disk, one after the other: those flushed before the first failed flush. */
  function Flushed(batches: seq<(seq<RedoOp>, Fate)>): seq<RedoOp> {
    if batches == [] then []
    else if batches[0].1.FlushFails? then []
    else (if batches[0].1.Durable? then batches[0].0 else []) + Flushed(batches[1..])
  }

  /** The log holds exactly the batches flushed before the first failed flush, whole and in order; that flush poisons
      the log, and from then on nothing changes it. */
  lemma {:induction false} AppendHistory(log: Log, batches: seq<(seq<RedoOp>, Fate)>)
    requires !log.poisoned
    ensures AppendAll(log, batches).entries == log.entries + Flushed(batches)
    ensures AppendAll(log, batches).poisoned <==> exists i :: 0 <= i < |batches| && batches[i].1.FlushFails?
    ensures AppendAll(log, batches).poisoned ==>
              exists i :: 0 <= i < |batches| && FirstFailure(batches, i) && AppendAll(log, batches).torn == batches[i].0
  {
    if batches != [] {
      var n := |batches| - 1;
      var front := batches[..n];
      AppendHistory(log, front);
      FlushedSnoc(front, batches[n]);
      assert batches == front + [batches[n]];
      if i :| 0 <= i < n && FirstFailure(front, i) && AppendAll(log, front).torn == front[i].0 {
        assert FirstFailure(batches, i) && batches[i] == front[i];
      }
      if !AppendAll(log, front).poisoned && batches[n].1.FlushFails? { assert FirstFailure(batches, n); }
      if i :| 0 <= i < n && front[i].1.FlushFails? { assert batches[i].1.FlushFails?; }
      if i :| 0 <= i < |batches| && batches[i].1.FlushFails? && i < n { assert front[i].1.FlushFails?; }
    }
  }

  ghost predicate FirstFailure(batches: seq<(seq<RedoOp>, Fate)>, i: nat)
    requires i < |batches|
  {
    batches[i].1.FlushFails? && forall j :: 0 <= j < i ==> !batches[j].1.FlushFails?
  }

  lemma {:induction false} FlushedSnoc(batches: seq<(seq<RedoOp>, Fate)>, last: (seq<RedoOp>, Fate))
    ensures Flushed(batches + [last]) == Flushed(batches) +
            if last.1.Durable? && forall i :: 0 <= i < |batches| ==> !batches[i].1.FlushFails? then last.0 else []
  {
    var all := batches + [last];
    if batches == [] {
      assert all[1..] == [];
    } else {
      FlushedSnoc(batches[1..], last);
      assert all[1..] == batches[1..] + [last];
      assert forall i :: 0 <= i < |batches[1..]| ==> batches[1..][i] == batches[i + 1];
      if !batches[0].1.FlushFails? && (forall i :: 0 <= i < |batches[1..]| ==> !batches[1..][i].1.FlushFails?) {
        forall i | 0 <= i < |batches| ensures !batches[i].1.FlushFails? {
          if i > 0 { assert batches[1..][i - 1] == batches[i]; }
        }
      }
    }
  }

  class RedoLog {
    var log: Log

    constructor ()
      ensures log == Log([], [], false)
    {
      log := Log([], [], false);
    }

    /** Appends the batch whole and flushes it with one sync. Success means the durable entries grew by exactly the
        batch. On failure no entry of it counts as durable: the log is as it was, or poisoned with the batch torn, and
        a poisoned log takes nothing more. */
    method AppendBatchAndFlush(ops: seq<RedoOp>, fate: Fate) returns (ok: bool)
      modifies this
      ensures ok ==> log.entries == old(log.entries) + ops && !log.poisoned
      ensures !ok ==> log.entries == old(log.entries)
      ensures !ok ==> log == old(log) || (!old(log.poisoned) && log.poisoned && log.torn == ops)
      ensures old(log.poisoned) ==> !ok && log == old(log)
      ensures ok == Accepts(old(log), fate) && log == Append(old(log), ops, fate)
    {
      if log.poisoned {
        return false;
      }
      match fate {
        case LogFull => ok := false;
        case FlushFails => log := log.(torn := ops, poisoned := true); ok := false;
        case Durable => log := log.(entries := log.entries + ops); ok := true;
      }
    }
  }
}
