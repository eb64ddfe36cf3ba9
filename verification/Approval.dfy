/** The challenge and receipt a runner and its launcher exchange before a lifecycle may start. */
module Approval {
  import opened Basics
  import opened Endian
  import opened Nonces
  import opened Transport
  import opened Digests

  const CHALLENGE_MAGIC: nat := 0x4257_4348_414c_3031
  const RECEIPT_MAGIC: nat := 0x4257_4150_5052_3031
  const VERSION: nat := 1
  const CHALLENGE_SIZE: nat := 56
  const RECEIPT_SIZE: nat := 160
  const SECOND: nat := 1_000_000_000
  const IO_TIMEOUT: nat := 5 * SECOND
  const CHALLENGE_WAIT: nat := 120 * SECOND
  const RECEIPT_LIFETIME: nat := 30 * SECOND
  const MAX_LIFETIME: nat := 120 * SECOND

  /** What the approver agrees to: three SHA-256 digests. */
  datatype Bindings = Bindings(binary: Digest, plist: Digest, requirement: Digest) {
    function Bytes(): seq<Byte> { binary + plist + requirement }
  }

  /** A process number or user number as it stands in a message. */
  type Pid = p: nat | p < 0x8000_0000
  type Uid = u: nat | u < 0x1_0000_0000

  function Signed(n: nat): int { if n >= 0x8000_0000 then n - 0x1_0000_0000 else n }

  function ChallengeBytes(pid: Pid, nonce: Nonce): seq<Byte> {
    Little(CHALLENGE_MAGIC, 8) + Little(VERSION, 4) + Little(CHALLENGE_SIZE, 4) + Little(pid, 4) + Little(0, 4) + nonce
  }

  function ReceiptBytes(expires: nat, uid: Uid, pid: Pid, nonce: Nonce, b: Bindings): seq<Byte> {
    Little(RECEIPT_MAGIC, 8) + Little(VERSION, 4) + Little(RECEIPT_SIZE, 4) + Little(expires, 8) + Little(uid, 4) +
    Little(pid, 4)
    + nonce + b.Bytes()
  }

  function U64(s: seq<Byte>, at: nat): nat
    requires at + 8 <= |s|
  {
    FromLittle(s[at..at + 8])
  }

  function U32(s: seq<Byte>, at: nat): nat
    requires at + 4 <= |s|
  {
    FromLittle(s[at..at + 4])
  }

  /** The answerer's field checks. */
  predicate ChallengeFields(s: seq<Byte>)
    requires |s| == CHALLENGE_SIZE
  {
    U64(s, 0) == CHALLENGE_MAGIC && U32(s, 8) == VERSION && U32(s, 12) == CHALLENGE_SIZE && Signed(U32(s, 16)) > 1 &&
    U32(s, 20) == 0
  }

  /** The runner's field checks, all but nonce and bindings. */
  predicate ReceiptFields(s: seq<Byte>, uid: Uid, pid: Pid)
    requires |s| == RECEIPT_SIZE
  {
    U64(s, 0) == RECEIPT_MAGIC && U32(s, 8) == VERSION && U32(s, 12) == RECEIPT_SIZE && U32(s, 24) == uid &&
    Signed(U32(s, 28)) == pid
  }

  lemma U64Is(s: seq<Byte>, at: nat, n: nat)
    requires at + 8 <= |s| && n < 0x1_0000_0000_0000_0000
    ensures U64(s, at) == n <==> s[at..at + 8] == Little(n, 8)
  {
    hide FromLittle, Little;
    Widths();
    FieldIs(s[at..at + 8], n);
  }

  lemma U32Is(s: seq<Byte>, at: nat, n: nat)
    requires at + 4 <= |s| && n < 0x1_0000_0000
    ensures U32(s, at) == n <==> s[at..at + 4] == Little(n, 4)
    ensures U32(s, at) < 0x1_0000_0000
  {
    hide FromLittle, Little;
    Widths();
    FieldIs(s[at..at + 4], n);
    FromLittleInverse(s[at..at + 4]);
  }

  /** Passing the checks is the same as being the one encoding of a challenge. */
  lemma ChallengeIs(s: seq<Byte>)
    requires |s| == CHALLENGE_SIZE
    ensures U32(s, 16) < 0x1_0000_0000
    ensures ChallengeFields(s) <==> 1 < U32(s, 16) < 0x8000_0000 && s == ChallengeBytes(U32(s, 16), s[24..])
  {
    hide FromLittle, Little, Power256;
    U32Is(s, 16, 0);
    var pid := U32(s, 16);
    U64Is(s, 0, CHALLENGE_MAGIC);
    U32Is(s, 8, VERSION);
    U32Is(s, 12, CHALLENGE_SIZE);
    U32Is(s, 16, pid);
    U32Is(s, 20, 0);
    assert s == s[0..8] + s[8..12] + s[12..16] + s[16..20] + s[20..24] + s[24..];
    if 1 < pid < 0x8000_0000 && s == ChallengeBytes(pid, s[24..]) { ChallengeSlices(pid, s[24..]); }
  }

  lemma ChallengeSlices(pid: Pid, nonce: Nonce)
    requires |nonce| == NONCE_BYTES
    ensures var s := ChallengeBytes(pid, nonce);
            && |s| == CHALLENGE_SIZE && s[0..8] == Little(CHALLENGE_MAGIC, 8) && s[8..12] == Little(VERSION, 4)
            && s[12..16] == Little(CHALLENGE_SIZE, 4)
            && s[16..20] == Little(pid, 4)
            && s[20..24] == Little(0, 4)
            && s[24..] == nonce
  {
    hide Little;
  }

  lemma ReceiptSlices(expires: nat, uid: Uid, pid: Pid, nonce: Nonce, b: Bindings)
    requires |nonce| == NONCE_BYTES
    ensures var s := ReceiptBytes(expires, uid, pid, nonce, b);
            && |s| == RECEIPT_SIZE
            && s[0..8] == Little(RECEIPT_MAGIC, 8)
            && s[8..12] == Little(VERSION, 4)
            && s[12..16] == Little(RECEIPT_SIZE, 4)
            && s[16..24] == Little(expires, 8) && s[24..28] == Little(uid, 4) && s[28..32] == Little(pid, 4)
            && s[32..64] == nonce && s[64..] == b.Bytes()
  {
    hide Little;
  }

  lemma BindingsAt(s: seq<Byte>, b: Bindings)
    requires |s| == RECEIPT_SIZE
    ensures s[64..] == b.Bytes() <==> s[64..96] == b.binary && s[96..128] == b.plist && s[128..160] == b.requirement
  {
    var t := s[64..];
    assert t[..32] == s[64..96] && t[32..64] == s[96..128] && t[64..] == s[128..160];
    assert b.Bytes()[..32] == b.binary && b.Bytes()[32..64] == b.plist && b.Bytes()[64..] == b.requirement;
    assert t == t[..32] + t[32..64] + t[64..];
  }

  /** Likewise for a receipt: field checks, nonce and bindings together leave only the expiry open. */
  lemma ReceiptIs(s: seq<Byte>, uid: Uid, pid: Pid, nonce: Nonce, b: Bindings)
    requires |s| == RECEIPT_SIZE && |nonce| == NONCE_BYTES
    ensures U64(s, 16) < 0x1_0000_0000_0000_0000
    ensures ReceiptFields(s, uid, pid) && s[32..64] == nonce && s[64..96] == b.binary && s[96..128] == b.plist &&
            s[128..160] == b.requirement <==>
            s == ReceiptBytes(U64(s, 16), uid, pid, nonce, b)
  {
    hide FromLittle, Little, Power256, Bindings.Bytes;
    Widths();
    FromLittleInverse(s[16..24]);
    BindingsAt(s, b);
    var expires := U64(s, 16);
    U64Is(s, 0, RECEIPT_MAGIC);
    U32Is(s, 8, VERSION);
    U32Is(s, 12, RECEIPT_SIZE);
    U64Is(s, 16, expires);
    U32Is(s, 24, uid);
    U32Is(s, 28, pid);
    assert s == s[0..8] + s[8..12] + s[12..16] + s[16..24] + s[24..28] + s[28..32] + s[32..64] + s[64..];
    if s == ReceiptBytes(expires, uid, pid, nonce, b) { ReceiptSlices(expires, uid, pid, nonce, b); }
  }

  // ---- the two parties ----

  /**
    The runner as the system sees it: its numbers; whether it runs elevated under a stable parent; whether the
    socket is a connected local one whose peer is the real user; and whether the parent is still the same at the end.
    */
  datatype Runner = Runner(uid: Uid, pid: Pid, elevated: bool, peerChecked: bool, stillElevated: bool)

  datatype Approver = Approver(uid: Uid, unprivileged: bool, peerChecked: bool)

  ghost function Expiry(s: seq<Byte>): nat { if |s| == RECEIPT_SIZE then U64(s, 16) else 0 }

  /** The bytes are one receipt for exactly this runner, nonce and bindings. */
  ghost predicate Genuine(s: seq<Byte>, me: Runner, nonce: Nonce, b: Bindings) {
    |s| == RECEIPT_SIZE && s == ReceiptBytes(Expiry(s), me.uid, me.pid, nonce, b)
  }

  ghost predicate Remembers(ring: NonceRing) reads ring, ring.slots {
    ring.Valid() && forall i | 0 <= i < |ring.accepted| :: |ring.accepted[i]| == NONCE_BYTES
  }

  /** First half of the runner: one challenge with a nonce of its own. */
  method Issue(clock: Clock, up: Pipe, me: Runner, nonce: Nonce) returns (deadline: Option<nat>)
    requires clock.Valid()
    modifies clock, up`pending
    ensures clock.Later()
    ensures old(up.pending) <= up.pending <= old(up.pending) + ChallengeBytes(me.pid, nonce)
    ensures deadline.Some? ==>
              && me.elevated
              && me.peerChecked
              && HasNonZero(nonce)
              && up.pending == old(up.pending) + ChallengeBytes(me.pid, nonce)
              && old(clock.now) + IO_TIMEOUT <= deadline.value <= clock.now + IO_TIMEOUT
    ensures clock.prompt && clock.limit <= old(clock.now) + IO_TIMEOUT && me.elevated && me.peerChecked &&
            HasNonZero(nonce) ==>
              deadline.Some?
  {
    hide HasNonZero, ChallengeBytes;
    if !me.elevated || !me.peerChecked { return None; }
    var started := clock.Read();
    if started.None? { return None; }
    var nonzero := NonZero(nonce);
    if !nonzero { return None; }
    var written := WriteExact(clock, up, ChallengeBytes(me.pid, nonce), started.value + IO_TIMEOUT);
    return if written then Some(started.value + IO_TIMEOUT) else None;
  }

  /** The nonce and the bindings of a receipt, compared without an early exit. */
  method SameContent(s: seq<Byte>, nonce: Nonce, expected: Bindings) returns (same: bool)
    requires |s| == RECEIPT_SIZE && |nonce| == NONCE_BYTES
    ensures same <==>
            && s[32..64] == nonce && HasNonZero(nonce)
            && s[64..96] == expected.binary && s[96..128] == expected.plist && s[128..160] == expected.requirement
  {
    hide HasNonZero;
    BindingsAt(s, expected);
    same := EqualBytes(s[32..64], nonce);
    if !same { return; }
    same := NonZero(s[32..64]);
    if !same { return; }
    same := EqualBytes(s[64..], expected.Bytes());
  }

  /**
    Second half: accept exactly one genuine, current receipt and remember its nonce. `at` is the instant at which
    the receipt was judged.
    */
  method Consume(clock: Clock, down: Pipe, ring: NonceRing, me: Runner, nonce: Nonce, expected: Bindings, deadline: nat)
    returns (ok: bool, ghost at: nat)
    requires clock.Valid() && Remembers(ring) && |nonce| == NONCE_BYTES
    modifies clock, down`pending, ring, ring.slots
    ensures clock.Later() && Remembers(ring) && old(clock.now) <= at <= clock.now
    ensures ok ==>
              && down.ended && Genuine(old(down.pending), me, nonce, expected) && HasNonZero(nonce) && me.stillElevated
              && at < Expiry(old(down.pending)) <= at + MAX_LIFETIME
              && nonce !in Recent(old(ring.accepted)) && ring.accepted == old(ring.accepted) + [nonce]
    ensures ring.accepted == old(ring.accepted) ||
            (ring.accepted == old(ring.accepted) + [nonce] && (ok <==> me.stillElevated))
    ensures (clock.prompt && clock.limit <= deadline && me.stillElevated && down.ended &&
             Genuine(old(down.pending), me, nonce, expected)
             && clock.limit <= Expiry(old(down.pending)) <= old(clock.now) + MAX_LIFETIME
             && HasNonZero(nonce) && nonce !in Recent(old(ring.accepted))) ==> ok
  {
    hide HasNonZero, ReceiptBytes, ReceiptFields, Bindings.Bytes, Recent, U64, NonceRing.Valid;
    ok, at := false, clock.now;
    var got := ExactReadThenEof(clock, down, RECEIPT_SIZE, deadline);
    at := clock.now;
    if got.None? { return; }
    var s := got.value;
    ReceiptIs(s, me.uid, me.pid, nonce, expected);
    var now := clock.Read();
    at := clock.now;
    if now.None? || !ReceiptFields(s, me.uid, me.pid) || U64(s, 16) <= now.value ||
       U64(s, 16) - now.value > MAX_LIFETIME { return; }
    var same := SameContent(s, nonce, expected);
    if !same { return; }
    ok := ring.RememberOnce(s[32..64]);
    ok := ok && me.stillElevated;
  }

  /** The runner's side of one exchange, against any peer: `down` holds whatever that peer will ever send. */
  method ReceiveApproval(clock: Clock, up: Pipe, down: Pipe, ring: NonceRing, me: Runner, nonce: Nonce,
                         expected: Bindings)
    returns (ok: bool, ghost at: nat)
    requires clock.Valid() && up != down && Remembers(ring) && |nonce| == NONCE_BYTES
    modifies clock, up`pending, down`pending, ring, ring.slots
    ensures clock.Later() && Remembers(ring)
    ensures ok ==> && me.elevated && me.peerChecked && me.stillElevated && HasNonZero(nonce)
                   && up.pending == old(up.pending) + ChallengeBytes(me.pid, nonce)
                   && down.ended && Genuine(old(down.pending), me, nonce, expected)
                   && old(clock.now) <= at <= clock.now && at < Expiry(old(down.pending)) <= at + MAX_LIFETIME
                   && nonce !in Recent(old(ring.accepted)) && ring.accepted == old(ring.accepted) + [nonce]
  {
    hide HasNonZero, ChallengeBytes, ReceiptBytes, Bindings.Bytes, Recent, NonceRing.Valid;
    ok, at := false, clock.now;
    var deadline := Issue(clock, up, me, nonce);
    if deadline.None? { return; }
    ok, at := Consume(clock, down, ring, me, nonce, expected, deadline.value);
  }

  /** The launcher's side: answer one well-formed challenge with one receipt, then finish the stream. */
  method AnswerChallenge(clock: Clock, up: Pipe, down: Pipe, me: Approver, b: Bindings) returns (approved: Option<Pid>)
    requires clock.Valid() && up != down
    modifies clock, up`pending, down
    ensures clock.Later()
    ensures approved.Some? ==>
              && me.unprivileged
              && me.peerChecked
              && approved.value > 1
              && |old(up.pending)| >= CHALLENGE_SIZE
              && down.ended
              && var nonce := old(up.pending)[24..CHALLENGE_SIZE];
              && HasNonZero(nonce) && old(up.pending)[..CHALLENGE_SIZE] == ChallengeBytes(approved.value, nonce)
              && |down.pending| >= |old(down.pending)|
              && var sent := down.pending[|old(down.pending)|..];
              && down.pending == old(down.pending) + sent && |sent| == RECEIPT_SIZE
              && sent == ReceiptBytes(Expiry(sent), me.uid, approved.value, nonce, b)
              && old(clock.now) + RECEIPT_LIFETIME <= Expiry(sent) <= clock.now + RECEIPT_LIFETIME
    ensures (clock.prompt && clock.limit <= old(clock.now) + IO_TIMEOUT && me.unprivileged && me.peerChecked &&
             |old(up.pending)| >= CHALLENGE_SIZE
             && var s := old(up.pending)[..CHALLENGE_SIZE];
             ChallengeFields(s) && HasNonZero(s[24..])) ==> approved.Some?
  {
    hide HasNonZero, ChallengeBytes, ReceiptBytes, ChallengeFields, U32, U64;
    if !me.unprivileged || !me.peerChecked { return None; }
    var started := clock.Read();
    if started.None? { return None; }
    var got := ReadExact(clock, up, CHALLENGE_SIZE, started.value + CHALLENGE_WAIT);
    if got.None? { return None; }
    var s := got.value;
    assert s == old(up.pending)[..CHALLENGE_SIZE] && s[24..] == old(up.pending)[24..CHALLENGE_SIZE];
    ChallengeIs(s);
    if !ChallengeFields(s) { return None; }
    var nonzero := NonZero(s[24..]);
    if !nonzero { return None; }
    var now := clock.Read();
    if now.None? { return None; }
    var receipt := ReceiptBytes(now.value + RECEIPT_LIFETIME, me.uid, U32(s, 16), s[24..], b);
    ExpiryOf(now.value + RECEIPT_LIFETIME, me.uid, U32(s, 16), s[24..], b);
    var written := WriteExact(clock, down, receipt, now.value + IO_TIMEOUT);
    if !written { return None; }
    assert down.pending[|old(down.pending)|..] == receipt;
    var fails: bool := *;
    if fails && !clock.prompt { return None; }
    down.ended := true;
    approved := Some(U32(s, 16));
  }

  lemma ExpiryOf(expires: nat, uid: Uid, pid: Pid, nonce: Nonce, b: Bindings)
    requires |nonce| == NONCE_BYTES && expires < 0x1_0000_0000_0000_0000
    ensures var s := ReceiptBytes(expires, uid, pid, nonce, b); |s| == RECEIPT_SIZE && Expiry(s) == expires
  {
    hide FromLittle, Little;
    ReceiptSlices(expires, uid, pid, nonce, b);
    U64Is(ReceiptBytes(expires, uid, pid, nonce, b), 16, expires);
  }

  lemma ReceiptDetermines(e: nat, uid: Uid, pid: Pid, nonce: Nonce, b: Bindings, e': nat, uid': Uid, pid': Pid,
                          nonce': Nonce, b': Bindings)
    requires |nonce| == NONCE_BYTES && |nonce'| == NONCE_BYTES
    requires ReceiptBytes(e, uid, pid, nonce, b) == ReceiptBytes(e', uid', pid', nonce', b')
    ensures uid == uid' && pid == pid' && nonce == nonce' && b == b'
  {
    hide Little, FromLittle;
    ReceiptSlices(e, uid, pid, nonce, b);
    ReceiptSlices(e', uid', pid', nonce', b');
    Widths();
    LittleInverse(uid, 4);
    LittleInverse(uid', 4);
    LittleInverse(pid, 4);
    LittleInverse(pid', 4);
    var s := b.Bytes();
    assert s[..32] == b.binary == b'.binary && s[32..64] == b.plist == b'.plist &&
           s[64..] == b.requirement == b'.requirement;
  }

  /**
    Runner and launcher together, over an honest connection: if all goes well in time, the runner accepts exactly
    when both were given the same bindings and run for the same user.
    */
  method Exchange(clock: Clock, ring: NonceRing, me: Runner, nonce: Nonce, expected: Bindings, other: Approver,
                  approvedBindings: Bindings)
    returns (ok: bool)
    requires clock.Valid() && Remembers(ring) && |nonce| == NONCE_BYTES && HasNonZero(nonce)
    requires clock.prompt && clock.limit <= clock.now + IO_TIMEOUT
    requires me.elevated && me.peerChecked && me.stillElevated && me.pid > 1 && other.unprivileged && other.peerChecked
    modifies clock, ring, ring.slots
    ensures ok <==> expected == approvedBindings && me.uid == other.uid && nonce !in Recent(old(ring.accepted))
  {
    hide HasNonZero, ChallengeBytes, ReceiptBytes, Bindings.Bytes, Recent, NonceRing.Valid, ChallengeFields;
    var up := new Pipe([], false);
    var down := new Pipe([], false);
    var deadline := Issue(clock, up, me, nonce);
    assert up.pending == ChallengeBytes(me.pid, nonce);
    IssuedIsWellFormed(me.pid, nonce);
    assert up.pending[..CHALLENGE_SIZE] == up.pending;
    var approved := AnswerChallenge(clock, up, down, other, approvedBindings);
    ChallengeDetermines(me.pid, nonce, approved.value);
    assert down.pending[0..] == down.pending;
    ghost var receipt := down.pending;
    ghost var at;
    ok, at := Consume(clock, down, ring, me, nonce, expected, deadline.value);
    if ok {
      ReceiptDetermines(Expiry(receipt), other.uid, me.pid, nonce, approvedBindings, Expiry(receipt), me.uid, me.pid,
                        nonce, expected);
    }
  }

  lemma IssuedIsWellFormed(pid: Pid, nonce: Nonce)
    requires |nonce| == NONCE_BYTES && pid > 1
    ensures var s := ChallengeBytes(pid, nonce); |s| == CHALLENGE_SIZE && ChallengeFields(s) && s[24..] == nonce
  {
    hide Little, FromLittle;
    var s := ChallengeBytes(pid, nonce);
    ChallengeSlices(pid, nonce);
    U32Is(s, 16, pid);
    U64Is(s, 0, CHALLENGE_MAGIC);
    U32Is(s, 8, VERSION);
    U32Is(s, 12, CHALLENGE_SIZE);
    U32Is(s, 20, 0);
  }

  lemma ChallengeDetermines(pid: Pid, nonce: Nonce, pid': Pid)
    requires |nonce| == NONCE_BYTES && ChallengeBytes(pid, nonce) == ChallengeBytes(pid', nonce)
    ensures pid == pid'
  {
    hide Little, FromLittle;
    ChallengeSlices(pid, nonce);
    ChallengeSlices(pid', nonce);
    Widths();
    LittleInverse(pid, 4);
    LittleInverse(pid', 4);
  }
}
