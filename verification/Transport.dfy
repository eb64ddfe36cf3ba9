/** Exact reads and writes over a stream socket, against a deadline. */
module Transport {
  import opened Basics

  /** Nanoseconds of the monotonic clock; sums with the protocol's timeouts stay below 2^64. */
  const CLOCK_END: nat := 0x8000_0000_0000_0000

  /** The clock both parties read. Each reading, wait or transfer may take any time. */
  class Clock {
    /** No call fails, and everything happens before `limit`. */
    const prompt: bool
    const limit: nat
    var now: nat
    /** How many more calls may be interrupted: any number, but a finite one. */
    var interrupts: nat

    constructor (prompt: bool, limit: nat, now: nat, interrupts: nat)
      requires now < CLOCK_END && (prompt ==> now < limit)
      ensures Valid() && this.prompt == prompt && this.limit == limit && this.now == now
    {
      this.prompt, this.limit, this.now, this.interrupts := prompt, limit, now, interrupts;
    }

    ghost predicate Valid() reads this { now < CLOCK_END && (prompt ==> now < limit) }

    /** Time goes on and interruptions are used up. */
    twostate predicate Later() reads this { Valid() && now >= old(now) && interrupts <= old(interrupts) }

    method Pass()
      requires Valid()
      modifies this`now
      ensures Later()
    {
      var t: nat := *;
      if now <= t < CLOCK_END && (prompt ==> t < limit) { now := t; }
    }

    method Read() returns (t: Option<nat>)
      requires Valid()
      modifies this`now
      ensures Later() && (t.Some? ==> old(now) <= t.value == now) && (prompt ==> t.Some?)
    {
      Pass();
      var fails: bool := *;
      t := if fails && !prompt then None else Some(now);
    }

    method Interrupted() returns (yes: bool)
      requires Valid()
      modifies this`interrupts
      ensures Later() && (yes ==> interrupts < old(interrupts))
    {
      yes := *;
      yes := yes && interrupts > 0;
      if yes { interrupts := interrupts - 1; }
    }
  }

  /** One direction of a connection: what was sent and not yet read, and whether the sender has finished. */
  class Pipe {
    var pending: seq<Byte>
    var ended: bool

    constructor (pending: seq<Byte>, ended: bool)
      ensures this.pending == pending && this.ended == ended
    {
      this.pending, this.ended := pending, ended;
    }
  }

  datatype Transfer = Moved(bytes: seq<Byte>) | Again | Failed

  /** poll until data or end of stream, or give up at the deadline. */
  method WaitReady(clock: Clock, deadline: nat, possible: bool) returns (ready: bool)
    requires clock.Valid()
    modifies clock
    ensures clock.Later()
    ensures ready ==> possible && old(clock.now) < deadline
    ensures clock.prompt && clock.limit <= deadline && possible ==> ready
  {
    while true
      invariant clock.Later()
      decreases clock.interrupts
    {
      var t := clock.Read();
      if t.None? || t.value >= deadline { return false; }
      clock.Pass();
      var again := clock.Interrupted();
      if !again {
        var fails: bool := *;
        return possible && (clock.prompt || !fails);
      }
    }
  }

  /** read: some non-empty part of what is there, the end of the stream, or a failure. */
  method ReadSome(clock: Clock, pipe: Pipe, want: nat) returns (t: Transfer)
    requires clock.Valid() && want > 0
    modifies clock, pipe`pending
    ensures clock.Later() && (t.Again? ==> clock.interrupts < old(clock.interrupts))
    ensures !t.Moved? ==> pipe.pending == old(pipe.pending)
    ensures t.Moved? ==> old(pipe.pending) == t.bytes + pipe.pending && |t.bytes| <= want
    ensures t.Moved? && t.bytes == [] ==> pipe.pending == [] && pipe.ended
    ensures clock.prompt && (pipe.pending != [] || pipe.ended) ==> !t.Failed?
    ensures clock.prompt && t.Moved? && old(pipe.pending) != [] ==> t.bytes != []
  {
    clock.Pass();
    var again := clock.Interrupted();
    if again { return Again; }
    var n: nat, fails: bool := *, *;
    if (fails && !clock.prompt) || (pipe.pending == [] && !pipe.ended) { return Failed; }
    var most := if want < |pipe.pending| then want else |pipe.pending|;
    if n == 0 || n > most { n := most; }
    t := Moved(pipe.pending[..n]);
    pipe.pending := pipe.pending[n..];
  }

  method SendSome(clock: Clock, pipe: Pipe, bytes: seq<Byte>) returns (t: Transfer)
    requires clock.Valid() && bytes != []
    modifies clock, pipe`pending
    ensures clock.Later() && (t.Again? ==> clock.interrupts < old(clock.interrupts))
    ensures pipe.pending == old(pipe.pending) + if t.Moved? then t.bytes else []
    ensures t.Moved? ==> t.bytes <= bytes
    ensures clock.prompt ==> !t.Failed? && (t.Moved? ==> t.bytes != [])
  {
    clock.Pass();
    var again := clock.Interrupted();
    if again { return Again; }
    var n: nat, fails: bool := *, *;
    if fails && !clock.prompt { return Failed; }
    if n > |bytes| || (n == 0 && clock.prompt) { n := |bytes|; }
    t := Moved(bytes[..n]);
    pipe.pending := pipe.pending + bytes[..n];
  }

  /** Exactly `length` bytes, however they are split. */
  method ReadExact(clock: Clock, pipe: Pipe, length: nat, deadline: nat) returns (got: Option<seq<Byte>>)
    requires clock.Valid()
    modifies clock, pipe`pending
    ensures clock.Later()
    ensures got.Some? ==> |got.value| == length && old(pipe.pending) == got.value + pipe.pending
    ensures got.Some? && length > 0 ==> old(clock.now) < deadline
    ensures clock.prompt && clock.limit <= deadline && |old(pipe.pending)| >= length ==> got.Some?
  {
    var bytes: seq<Byte> := [];
    while |bytes| < length
      invariant clock.Later() && |bytes| <= length && old(pipe.pending) == bytes + pipe.pending
      invariant |bytes| > 0 ==> old(clock.now) < deadline
      decreases length - |bytes|, clock.interrupts
    {
      var ready := WaitReady(clock, deadline, pipe.pending != [] || pipe.ended);
      if !ready { return None; }
      var t := ReadSome(clock, pipe, length - |bytes|);
      match t {
        case Moved(more) =>
          if more == [] { return None; }
          bytes := bytes + more;
        case Again =>
        case Failed => return None;
      }
    }
    got := Some(bytes);
  }

  method WriteExact(clock: Clock, pipe: Pipe, bytes: seq<Byte>, deadline: nat) returns (ok: bool)
    requires clock.Valid()
    modifies clock, pipe`pending
    ensures clock.Later()
    ensures old(pipe.pending) <= pipe.pending <= old(pipe.pending) + bytes
    ensures ok ==> pipe.pending == old(pipe.pending) + bytes
    ensures clock.prompt && clock.limit <= deadline ==> ok
  {
    var offset := 0;
    assert old(pipe.pending) + bytes[..0] == old(pipe.pending);
    while offset < |bytes|
      invariant clock.Later() && offset <= |bytes| && pipe.pending == old(pipe.pending) + bytes[..offset]
      decreases |bytes| - offset, clock.interrupts
    {
      var ready := WaitReady(clock, deadline, true);
      if !ready { return false; }
      var t := SendSome(clock, pipe, bytes[offset..]);
      match t {
        case Moved(more) =>
          if more == [] { return false; }
          assert bytes[..offset] + more == bytes[..offset + |more|];
          offset := offset + |more|;
        case Again =>
        case Failed => return false;
      }
    }
    assert bytes[..offset] == bytes;
    ok := true;
  }

  /** Exactly `length` bytes and then the end of the stream; a single byte more is refused. */
  method ExactReadThenEof(clock: Clock, pipe: Pipe, length: nat, deadline: nat) returns (got: Option<seq<Byte>>)
    requires clock.Valid()
    modifies clock, pipe`pending
    ensures clock.Later()
    ensures got.Some? ==>
              |got.value| == length && got.value == old(pipe.pending) && pipe.ended && old(clock.now) < deadline
    ensures clock.prompt && clock.limit <= deadline && pipe.ended && |old(pipe.pending)| == length ==> got.Some?
  {
    got := ReadExact(clock, pipe, length, deadline);
    if got.None? { return; }
    while true
      invariant clock.Later() && got.Some? && old(pipe.pending) == got.value + pipe.pending
      decreases clock.interrupts
    {
      var ready := WaitReady(clock, deadline, pipe.pending != [] || pipe.ended);
      if !ready { return None; }
      var t := ReadSome(clock, pipe, 1);
      match t {
        case Moved(more) =>
          if more == [] { return; }
          return None;
        case Again =>
        case Failed => return None;
      }
    }
  }
}
