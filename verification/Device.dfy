/** A block device that may transfer fewer bytes than asked, the exact-transfer loops on top of it,
    and a volatile write cache that loses unsynced writes on power failure. */
module Device {
  import opened Prelude
  import opened Rounding

  datatype DeviceError =
    | AlignmentViolation
    | OutOfBounds(offset: nat, len: nat)
    | ShortRead(expected: nat, got: nat, offset: nat)
    | WriteStalled(offset: nat, remaining: nat)
    | Io

  /** What the hardware does to one transfer; transfers beyond the script are full. */
  datatype Transfer = Full | Short(count: nat) | Fails

  // ----- transfers -----

  /** What the next transfer meets. */
  function Head(script: seq<Transfer>): Transfer {
    if script == [] then Full else script[0]
  }

  function Rest(script: seq<Transfer>): seq<Transfer> {
    if script == [] then [] else script[1..]
  }

  /** How many of `len` bytes a transfer moves. */
  function Moves(step: Transfer, len: nat): (n: nat)
    ensures n <= len
  {
    match step
    case Full => len
    case Short(count) => if count < len then count else len
    case Fails => 0
  }

  /** A whole number of blocks. */
  predicate Whole(n: nat, block: nat)
    requires block > 0
  {
    n % block == 0
  }

  lemma WholeSum(x: nat, y: nat, block: nat)
    requires block > 0 && Whole(x, block)
    ensures Whole(x + y, block) <==> Whole(y, block)
    ensures y >= x ==> (Whole(y - x, block) <==> Whole(y, block))
  {
    hide Whole;
    if Whole(y, block) { WholeBoth(x, y, block); }
    if Whole(x + y, block) { WholeBoth(x + y, x, block); }
    if y >= x && Whole(y - x, block) { WholeBoth(x, y - x, block); }
    if y >= x && Whole(y, block) { WholeBoth(y, x, block); }
  }

  lemma ZeroWhole(block: nat)
    requires block > 0
    ensures Whole(0, block)
  {
  }

  lemma WholeBoth(x: nat, y: nat, block: nat)
    requires block > 0 && Whole(x, block) && Whole(y, block)
    ensures Whole(x + y, block) && (x >= y ==> Whole(x - y, block))
  {
    AddMod(x, y, block);
  }

  /** How a request ends: all of it transferred, a transfer that moves nothing, a transfer that fails, or one that stops
      inside a block, from where the device takes no further transfer. */
  datatype Ending = Complete | Stalled | Broken | Ragged

  datatype Delivery = Delivery(ending: Ending, moved: nat, rest: seq<Transfer>)

  /** What becomes of a request for `left` bytes, retried as long as every transfer moves whole blocks. */
  function Deliver(script: seq<Transfer>, left: nat, block: nat): (d: Delivery)
    requires block > 0
    ensures d.moved <= left && (d.ending.Complete? <==> d.moved == left)
    ensures script == [] ==> d == Delivery(Complete, left, [])
  {
    var n := Moves(Head(script), left);
    if left == 0 then Delivery(Complete, 0, script)
    else if Head(script).Fails? then Delivery(Broken, 0, Rest(script))
    else if n == 0 then Delivery(Stalled, 0, Rest(script))
    else if n < left && !Whole(n, block) then Delivery(Ragged, n, Rest(script))
    else After(n, Deliver(Rest(script), left - n, block))
  }

  function After(n: nat, d: Delivery): Delivery {
    d.(moved := n + d.moved)
  }

  /** The bytes short transfers move together. */
  function Total(steps: seq<Transfer>): nat {
    if steps == [] then 0 else (if steps[0].Short? then steps[0].count else 0) + Total(steps[1..])
  }

  /** The first `m` transfers move positive whole numbers of blocks, together less than the request. */
  ghost predicate Steady(script: seq<Transfer>, m: nat, total: nat, block: nat)
    requires block > 0
  {
    && m <= |script| && Total(script[..m]) < total
    && forall i :: 0 <= i < m ==> script[i].Short? && script[i].count > 0 && Whole(script[i].count, block)
  }

  /** Transfer `next` decides the request with `left` bytes to go: it completes it if it moves all of them and stalls
      exactly if it moves none. */
  ghost predicate Decides(next: Transfer, left: nat, block: nat, d: Delivery)
    requires block > 0
  {
    && (d.ending.Complete? <==> next.Full? || (next.Short? && next.count >= left))
    && (d.ending.Stalled? <==> next == Short(0))
    && (d.ending.Broken? <==> next.Fails?)
    && (d.ending.Ragged? <==> next.Short? && 0 < next.count < left && !Whole(next.count, block))
  }

  /** Without the retry loop: some number of steady transfers, and the one after them decides. */
  lemma {:induction false} DeliverIs(script: seq<Transfer>, total: nat, block: nat) returns (m: nat)
    requires block > 0 && total > 0
    ensures Steady(script, m, total, block)
    ensures var d, left, next := Deliver(script, total, block), total - Total(script[..m]), Head(script[m..]);
            && Decides(next, left, block, d)
            && d.moved == Total(script[..m]) + Moves(next, left) && d.rest == Rest(script[m..])
    decreases total
  {
    hide Whole, Deliver, Decides, Steady;
    if script != [] && script[0].Short? && 0 < script[0].count < total && Whole(script[0].count, block) {
      var n := script[0].count;
      var k := DeliverIs(script[1..], total - n, block);
      m := k + 1;
      SteadyMore(script, k, total, block);
      SteadyFirst(script, total, block);
    } else {
      m := 0;
      assert script[..0] == [] && script[0..] == script;
      DecidedFirst(script, total, block);
    }
  }

  lemma SteadyFirst(script: seq<Transfer>, total: nat, block: nat)
    requires block > 0 && script != [] && script[0].Short? && 0 < script[0].count < total && Whole(script[0].count, block)
    ensures Deliver(script, total, block) == After(script[0].count, Deliver(script[1..], total - script[0].count, block))
    ensures forall next, left: nat ::
              Decides(next, left, block, Deliver(script, total, block)) <==>
              Decides(next, left, block, Deliver(script[1..], total - script[0].count, block))
  {
    hide Whole;
  }

  lemma DecidedFirst(script: seq<Transfer>, total: nat, block: nat)
    requires block > 0 && total > 0
    requires script == [] || !script[0].Short? || script[0].count == 0 || script[0].count >= total ||
             !Whole(script[0].count, block)
    ensures Steady(script, 0, total, block) && Decides(Head(script), total, block, Deliver(script, total, block))
    ensures Deliver(script, total, block).moved == Moves(Head(script), total)
    ensures Deliver(script, total, block).rest == Rest(script)
  {
    hide Whole;
    var n := Moves(Head(script), total);
    if n == total { assert Deliver(Rest(script), 0, block) == Delivery(Complete, 0, Rest(script)); }
  }

  lemma SteadyMore(script: seq<Transfer>, k: nat, total: nat, block: nat)
    requires block > 0 && script != [] && script[0].Short? && 0 < script[0].count < total && Whole(script[0].count, block)
    requires Steady(script[1..], k, total - script[0].count, block)
    ensures Steady(script, k + 1, total, block) && k < |script| && script[k + 1..] == script[1..][k..]
    ensures Total(script[..k + 1]) == script[0].count + Total(script[1..][..k])
  {
    hide Whole;
    assert script[..k + 1][1..] == script[1..][..k];
    forall i | 0 <= i < k + 1 ensures script[i].Short? && script[i].count > 0 && Whole(script[i].count, block) {
      if i > 0 { assert script[i] == script[1..][i - 1]; }
    }
  }

  /** Every transfer moves at least one block, and whole blocks only. */
  ghost predicate Reliable(script: seq<Transfer>, block: nat)
    requires block > 0
  {
    forall i :: 0 <= i < |script| ==>
      script[i].Full? || (script[i].Short? && script[i].count > 0 && Whole(script[i].count, block))
  }

  /** On such a device every request is completed, however short the transfers. */
  lemma {:induction false} ReliableCompletes(script: seq<Transfer>, total: nat, block: nat)
    requires block > 0 && Reliable(script, block)
    ensures Deliver(script, total, block).ending.Complete? && Reliable(Deliver(script, total, block).rest, block)
    decreases total
  {
    hide Whole;
    if total > 0 && script != [] {
      var n := Moves(script[0], total);
      ReliableCompletes(script[1..], total - n, block);
    }
  }

  /** One transfer of such a device. */
  lemma ReliableStep(script: seq<Transfer>, left: nat, block: nat)
    requires block > 0 && Reliable(script, block) && left > 0 && Whole(left, block)
    ensures !Head(script).Fails? && Moves(Head(script), left) > 0 && Whole(Moves(Head(script), left), block)
    ensures Reliable(Rest(script), block)
  {
    hide Whole;
  }

  /** Where the retry loop stands after `done` of `total` bytes. */
  ghost predicate Retrying(start: seq<Transfer>, script: seq<Transfer>, total: nat, done: nat, block: nat)
    requires block > 0 && done <= total
  {
    if done == total || Whole(done, block)
    then Deliver(start, total, block) == After(done, Deliver(script, total - done, block))
    else Deliver(start, total, block) == Delivery(Ragged, done, script)
  }

  /** One more transfer from there. */
  lemma Retried(start: seq<Transfer>, script: seq<Transfer>, total: nat, done: nat, block: nat)
    requires block > 0 && done < total && Whole(done, block) && Retrying(start, script, total, done, block)
    ensures var n := Moves(Head(script), total - done);
            if Head(script).Fails? then Deliver(start, total, block) == Delivery(Broken, done, Rest(script))
            else if n == 0 then Deliver(start, total, block) == Delivery(Stalled, done, Rest(script))
            else Retrying(start, Rest(script), total, done + n, block)
  {
    hide Whole;
    var n := Moves(Head(script), total - done);
    WholeSum(done, n, block);
  }

  lemma FirstAttempt(script: seq<Transfer>, total: nat, block: nat)
    requires block > 0
    ensures Retrying(script, script, total, 0, block)
  {
    hide Deliver;
  }

  lemma LastAttempt(start: seq<Transfer>, script: seq<Transfer>, total: nat, block: nat)
    requires block > 0 && Retrying(start, script, total, total, block)
    ensures Deliver(start, total, block) == Delivery(Complete, total, script)
  {
  }

  // ----- stored bytes -----

  /** `s` with `b` stored at `offset`. */
  function Splice(s: seq<byte>, offset: nat, b: seq<byte>): (r: seq<byte>)
    requires b == [] || offset + |b| <= |s|
    ensures |r| == |s|
  {
    if b == [] then s else s[..offset] + b + s[offset + |b|..]
  }

  lemma SpliceAt(s: seq<byte>, offset: nat, b: seq<byte>, x: nat)
    requires b == [] || offset + |b| <= |s|
    requires x < |s|
    ensures Splice(s, offset, b)[x] == if offset <= x < offset + |b| then b[x - offset] else s[x]
  {
  }

  /** What `t` is if it differs from `s` only by holding `b` at `offset`. */
  lemma SpliceIs(s: seq<byte>, offset: nat, b: seq<byte>, t: seq<byte>)
    requires offset + |b| <= |s| == |t|
    requires forall x :: 0 <= x < |s| ==> t[x] == if offset <= x < offset + |b| then b[x - offset] else s[x]
    ensures t == Splice(s, offset, b)
  {
    forall x | 0 <= x < |s| ensures t[x] == Splice(s, offset, b)[x] { SpliceAt(s, offset, b, x); }
  }

  lemma SpliceNothing(s: seq<byte>, offset: nat)
    ensures Splice(s, offset, []) == s
  {
  }

  /** Two stores back to back are one store. */
  lemma SpliceExtend(s: seq<byte>, offset: nat, a: seq<byte>, b: seq<byte>)
    requires a + b == [] || offset + |a| + |b| <= |s|
    ensures Splice(Splice(s, offset, a), offset + |a|, b) == Splice(s, offset, a + b)
  {
    if b == [] {
      assert a + b == a;
    } else if a == [] {
      assert a + b == b;
    } else {
      var t := Splice(s, offset, a);
      assert t[..offset + |a|] == s[..offset] + a;
      assert t[offset + |a| + |b|..] == s[offset + |a| + |b|..];
    }
  }

  /** The `n` bytes at `offset`. */
  function Piece(live: seq<byte>, offset: nat, n: nat): (b: seq<byte>)
    requires n > 0 ==> offset + n <= |live|
    ensures |b| == n
  {
    if n == 0 then [] else live[offset..offset + n]
  }

  lemma NoPiece(buf: seq<byte>, live: seq<byte>, offset: nat)
    ensures Splice(buf, 0, Piece(live, offset, 0)) == buf
  {
  }

  lemma WholePiece(buf: seq<byte>, live: seq<byte>, offset: nat)
    requires buf != [] ==> offset + |buf| <= |live|
    ensures Splice(buf, 0, Piece(live, offset, |buf|)) == Piece(live, offset, |buf|)
  {
  }

  lemma PieceIs(live: seq<byte>, offset: nat, n: nat)
    requires offset + n <= |live|
    ensures Piece(live, offset, n) == live[offset..offset + n]
  {
  }

  /** Two pieces that arrive back to back are one piece. */
  lemma NextPiece(buf: seq<byte>, got: nat, live: seq<byte>, offset: nat, n: nat)
    requires got + n <= |buf| && offset + got + n <= |live|
    ensures Splice(Splice(buf, 0, Piece(live, offset, got)), got, live[offset + got..offset + got + n]) ==
            Splice(buf, 0, Piece(live, offset, got + n))
  {
    hide Splice;
    SpliceExtend(buf, 0, Piece(live, offset, got), live[offset + got..offset + got + n]);
    assert Piece(live, offset, got) + live[offset + got..offset + got + n] == Piece(live, offset, got + n);
  }

  class BlockDevice {
    const alignment: nat
    /** What reads see: the bytes written so far, synced or not. */
    const live: array<byte>
    /** The bytes as of the last sync, on a device with a volatile write cache. */
    const shadow: array?<byte>
    var script: seq<Transfer>

    ghost predicate Valid() {
      && alignment > 0 && live.Length <= U64_LIMIT
      && (shadow != null ==> shadow != live && shadow.Length == live.Length)
    }

    constructor Volatile(size: u64, alignment: nat)
      requires alignment > 0
      ensures Valid() && this.alignment == alignment && script == [] && shadow != null
      ensures fresh(live) && fresh(shadow) && live.Length == size
      ensures live[..] == seq(size, _ => 0) && shadow[..] == live[..]
    {
      this.alignment := alignment;
      script := [];
      live := new byte[size](_ => 0);
      shadow := new byte[size](_ => 0);
      new;
      assert live[..] == seq(size, _ => 0);
      assert shadow[..] == seq(size, _ => 0);
    }

    predicate Aligned(offset: nat, len: nat)
      requires Valid()
    {
      offset % alignment == 0 && len % alignment == 0
    }

    /** How many of `len` bytes the next transfer moves; consumes one step of the script. */
    method NextTransfer(len: nat) returns (n: nat, failed: bool)
      modifies `script
      ensures script == Rest(old(script)) && n == Moves(Head(old(script)), len) && failed == Head(old(script)).Fails?
    {
      var step := Head(script);
      script := Rest(script);
      match step {
        case Full => n, failed := len, false;
        case Short(count) => n, failed := if count < len then count else len, false;
        case Fails => n, failed := 0, true;
      }
    }

    ghost predicate Healthy()
      requires Valid()
      reads `script
    {
      Reliable(script, alignment)
    }

    /** A request the device takes: aligned and in range. */
    predicate Takes(offset: nat, len: nat)
      requires Valid()
    {
      Aligned(offset, len) && offset + len <= live.Length
    }

    /** What one transfer of an unaligned or overlong request reports. */
    function Refusal(offset: nat, len: nat): DeviceError
      requires Valid()
    {
      if Aligned(offset, len) then OutOfBounds(offset, len) else AlignmentViolation
    }

    /** What becomes of a request for `len` bytes at `offset`; one the device does not take moves nothing. */
    function Request(script: seq<Transfer>, offset: nat, len: nat): Delivery
      requires Valid()
    {
      if len == 0 || Takes(offset, len) then Deliver(script, len, alignment) else Delivery(Ragged, 0, script)
    }

    /** What the request reports, where `stall` stands for a transfer that moved nothing. */
    function Answer(script: seq<Transfer>, offset: nat, len: nat, stall: DeviceError): (r: Result<(), DeviceError>)
      requires Valid()
      ensures r.Ok? <==> Request(script, offset, len).ending.Complete?
    {
      if len > 0 && offset >= U64_LIMIT then Err(OutOfBounds(offset, len))
      else if len > 0 && !Takes(offset, len) then Err(Refusal(offset, len))
      else match Request(script, offset, len).ending
        case Complete => Ok(())
        case Stalled => Err(stall)
        case Broken => Err(Io)
        case Ragged => Err(AlignmentViolation)
    }

    function ReadAnswer(script: seq<Transfer>, offset: nat, len: nat): (r: Result<(), DeviceError>)
      requires Valid()
      ensures r.Ok? <==> Request(script, offset, len).ending.Complete?
    {
      Answer(script, offset, len, ShortRead(len, Request(script, offset, len).moved, offset))
    }

    function WriteAnswer(script: seq<Transfer>, offset: nat, len: nat): (r: Result<(), DeviceError>)
      requires Valid()
      ensures r.Ok? <==> Request(script, offset, len).ending.Complete?
    {
      Answer(script, offset, len, WriteStalled(offset, len - Request(script, offset, len).moved))
    }

    /** One read into `buf[done..]`; may stop short. */
    method Pread(buf: array<byte>, done: nat, offset: nat) returns (r: Result<nat, DeviceError>)
      requires Valid() && done <= buf.Length && buf != live
      modifies buf, `script
      ensures r.Ok? ==> Takes(offset, buf.Length - done)
      ensures !Takes(offset, buf.Length - done) ==>
                r == Err(Refusal(offset, buf.Length - done)) && script == old(script)
      ensures Takes(offset, buf.Length - done) ==>
                && script == Rest(old(script))
                && r == if Head(old(script)).Fails? then Err(Io) else Ok(Moves(Head(old(script)), buf.Length - done))
      ensures r.Ok? ==> buf[..] == Splice(old(buf[..]), done, live[offset..offset + r.value])
      ensures r.Err? ==> buf[..] == old(buf[..])
    {
      var len := buf.Length - done;
      if !Aligned(offset, len) {
        return Err(AlignmentViolation);
      }
      if offset + len > live.Length {
        return Err(OutOfBounds(offset, len));
      }
      var n, failed := NextTransfer(len);
      if failed {
        return Err(Io);
      }
      forall i | 0 <= i < n { buf[done + i] := live[offset + i]; }
      SpliceIs(old(buf[..]), done, live[offset..offset + n], buf[..]);
      r := Ok(n);
    }

    /** One write; may stop short. */
    method Pwrite(b: seq<byte>, offset: nat) returns (r: Result<nat, DeviceError>)
      requires Valid()
      modifies live, `script
      ensures r.Ok? ==> Takes(offset, |b|)
      ensures !Takes(offset, |b|) ==> r == Err(Refusal(offset, |b|)) && script == old(script)
      ensures Takes(offset, |b|) ==>
                && script == Rest(old(script))
                && r == if Head(old(script)).Fails? then Err(Io) else Ok(Moves(Head(old(script)), |b|))
      ensures r.Ok? ==> live[..] == Splice(old(live[..]), offset, b[..r.value])
      ensures r.Err? ==> live[..] == old(live[..])
    {
      if !Aligned(offset, |b|) {
        return Err(AlignmentViolation);
      }
      if offset + |b| > live.Length {
        return Err(OutOfBounds(offset, |b|));
      }
      var n, failed := NextTransfer(|b|);
      if failed {
        return Err(Io);
      }
      forall i | 0 <= i < n { live[offset + i] := b[i]; }
      SpliceIs(old(live[..]), offset, b[..n], live[..]);
      r := Ok(n);
    }

    /** Reads exactly buf.Length bytes or fails; `done` is how many arrived. */
    method PreadExactAt(buf: array<byte>, offset: nat) returns (r: Result<(), DeviceError>, ghost done: nat)
      requires Valid() && buf != live
      modifies buf, `script
      ensures done <= buf.Length && (r.Ok? <==> done == buf.Length)
      ensures done > 0 ==> Takes(offset, buf.Length)
      ensures buf[..] == Splice(old(buf[..]), 0, Piece(live[..], offset, done))
      ensures r.Ok? ==> buf[..] == Piece(live[..], offset, buf.Length)
      ensures var d := Request(old(script), offset, buf.Length); done == d.moved && script == d.rest
      ensures r == ReadAnswer(old(script), offset, buf.Length)
      ensures old(Healthy()) ==> Healthy() && (Takes(offset, buf.Length) ==> r.Ok?)
    {
      hide Splice, Piece, BlockDevice.Aligned, Deliver, Retrying, Whole, Reliable, Moves, Head, Rest, After;
      var total := buf.Length;
      var got := 0;
      NoPiece(buf[..], live[..], offset);
      FirstAttempt(script, total, alignment);
      if Healthy() { ReliableCompletes(script, total, alignment); }
      while got < total
        invariant 0 <= got <= total
        invariant got > 0 ==> Takes(offset, total)
        invariant Takes(offset, total) ==> Retrying(old(script), script, total, got, alignment)
        invariant got == 0 ==> script == old(script)
        invariant buf[..] == Splice(old(buf[..]), 0, Piece(live[..], offset, got))
        decreases total - got
      {
        if offset + got >= U64_LIMIT {
          return Err(OutOfBounds(offset, total)), got;
        }
        ghost var left, before := script, buf[..];
        var step := Pread(buf, got, offset + got);
        if Takes(offset, total) { NextAttempt(offset, total, got, old(script), left); }
        if step.Err? {
          return Err(step.error), got;
        }
        if step.value == 0 {
          SpliceNothing(before, got);
          assert live[offset + got..offset + got] == [];
          return Err(ShortRead(total, got, offset)), got;
        }
        NextPiece(old(buf[..]), got, live[..], offset, step.value);
        got := got + step.value;
      }
      if total == 0 || Takes(offset, total) { LastAttempt(old(script), script, total, alignment); }
      WholePiece(old(buf[..]), live[..], offset);
      r, done := Ok(()), got;
    }

    /** After `done` bytes the device takes the next attempt exactly on a block boundary. */
    lemma NextAttempt(offset: nat, total: nat, done: nat, start: seq<Transfer>, script: seq<Transfer>)
      requires Valid() && Takes(offset, total) && done < total && Retrying(start, script, total, done, alignment)
      ensures offset + done < U64_LIMIT
      ensures Takes(offset + done, total - done) <==> Whole(done, alignment)
      ensures !Whole(done, alignment) ==>
                && !Aligned(offset + done, total - done)
                && Deliver(start, total, alignment) == Delivery(Ragged, done, script)
      ensures Whole(done, alignment) ==>
                var n := Moves(Head(script), total - done);
                if Head(script).Fails? then Deliver(start, total, alignment) == Delivery(Broken, done, Rest(script))
                else if n == 0 then Deliver(start, total, alignment) == Delivery(Stalled, done, Rest(script))
                else Retrying(start, Rest(script), total, done + n, alignment)
    {
      hide Deliver;
      WholeSum(offset, done, alignment);
      if Whole(done, alignment) {
        WholeSum(done, total, alignment);
        Retried(start, script, total, done, alignment);
      }
    }

    /** Writes all of `b` or fails; `done` is how much of it was stored. */
    method PwriteAllAt(b: seq<byte>, offset: nat) returns (r: Result<(), DeviceError>, ghost done: nat)
      requires Valid()
      modifies live, `script
      ensures done <= |b| && (r.Ok? <==> done == |b|)
      ensures done > 0 ==> Takes(offset, |b|)
      ensures live[..] == Splice(old(live[..]), offset, b[..done])
      ensures var d := Request(old(script), offset, |b|); done == d.moved && script == d.rest
      ensures r == WriteAnswer(old(script), offset, |b|)
      ensures old(Healthy()) ==> Healthy() && (Takes(offset, |b|) ==> r.Ok?)
    {
      hide Splice, BlockDevice.Aligned, Deliver, Retrying, Whole, Reliable, Moves, Head, Rest, After;
      var total := |b|;
      var put := 0;
      SpliceNothing(live[..], offset);
      assert b[..0] == [];
      FirstAttempt(script, total, alignment);
      if Healthy() { ReliableCompletes(script, total, alignment); }
      while put < total
        invariant 0 <= put <= total
        invariant put > 0 ==> Takes(offset, total)
        invariant Takes(offset, total) ==> Retrying(old(script), script, total, put, alignment)
        invariant put == 0 ==> script == old(script)
        invariant live[..] == Splice(old(live[..]), offset, b[..put])
        decreases total - put
      {
        if offset + put >= U64_LIMIT {
          return Err(OutOfBounds(offset, total)), put;
        }
        ghost var was, left := live[..], script;
        var step := Pwrite(b[put..], offset + put);
        if Takes(offset, total) { NextAttempt(offset, total, put, old(script), left); }
        if step.Err? {
          assert live[..] == was;
          return Err(step.error), put;
        }
        if step.value == 0 {
          SpliceNothing(was, offset + put);
          assert b[put..][..0] == [];
          return Err(WriteStalled(offset, total - put)), put;
        }
        assert b[..put + step.value] == b[..put] + b[put..][..step.value];
        SpliceExtend(old(live[..]), offset, b[..put], b[put..][..step.value]);
        put := put + step.value;
      }
      if total == 0 || Takes(offset, total) { LastAttempt(old(script), script, total, alignment); }
      r, done := Ok(()), put;
    }

    /** Makes every write so far durable. */
    method Sync()
      requires Valid()
      modifies shadow
      ensures shadow != null ==> shadow[..] == live[..]
    {
      if shadow != null {
        forall i | 0 <= i < live.Length { shadow[i] := live[i]; }
        assert shadow[..] == live[..];
      }
    }

    /** Drops every write since the last sync; false on a device without a volatile cache. */
    method SimulatePowerLoss() returns (lost: bool)
      requires Valid()
      modifies live
      ensures lost <==> shadow != null
      ensures live[..] == if shadow != null then old(shadow[..]) else old(live[..])
    {
      lost := shadow != null;
      if shadow != null {
        forall i | 0 <= i < live.Length { live[i] := shadow[i]; }
        assert live[..] == shadow[..];
      }
    }
  }
}
