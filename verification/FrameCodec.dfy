/** The one-shot frames that hand a token and a policy to the proxy runtime. */
module FrameCodec {
  import opened Basics
  import opened Endian
  import opened Sequences

  const TOKEN_MAGIC: seq<Byte> := [0x42, 0x57, 0x41, 0x54]
  const POLICY_MAGIC: seq<Byte> := [0x42, 0x57, 0x41, 0x50]
  const HEADER: nat := 9
  const MAX_TOKEN: nat := 512
  const MAX_POLICY: nat := 16 * 1024

  /** Magic, version 1, big-endian length, payload. */
  function Frame(magic: seq<Byte>, payload: seq<Byte>): seq<Byte> {
    magic + [1] + Big(|payload|, 4) + payload
  }

  /** Building the frame in its buffer, field by field. */
  method EncodeFrame(magic: seq<Byte>, payload: seq<Byte>) returns (frame: array<Byte>)
    requires |magic| == 4 && |payload| < 0x1_0000_0000
    ensures fresh(frame) && frame[..] == Frame(magic, payload)
  {
    hide Big;
    frame := new Byte[HEADER + |payload|](_ => 0);
    for i := 0 to 4
      invariant forall k | 0 <= k < i :: frame[k] == magic[k]
    {
      frame[i] := magic[i];
    }
    frame[4] := 1;
    var length := Big(|payload|, 4);
    for i := 0 to 4
      invariant frame[4] == 1 && forall k | 0 <= k < 4 :: frame[k] == magic[k]
      invariant forall k | 0 <= k < i :: frame[5 + k] == length[k]
    {
      frame[5 + i] := length[i];
    }
    for i := 0 to |payload|
      invariant frame[4] == 1 && forall k | 0 <= k < 4 :: frame[k] == magic[k] && frame[5 + k] == length[k]
      invariant forall k | 0 <= k < i :: frame[HEADER + k] == payload[k]
    {
      frame[HEADER + i] := payload[i];
    }
    var f := frame[..];
    var g := Frame(magic, payload);
    assert |g| == |f| && forall k | 0 <= k < 4 :: f[k] == magic[k] == g[k] && f[5 + k] == length[k] == g[5 + k];
    forall k | 0 <= k < |f| ensures f[k] == g[k] {
      if k >= HEADER { assert f[k] == payload[k - HEADER] == g[k]; } else {
        assert k < 4 || k == 4 || k == 5 + (k - 5);
      }
    }
  }

  datatype Code = TooLarge | ReadFailed | Timeout | InvalidHeader | InvalidLength

  datatype Outcome = Payload(bytes: seq<Byte>) | Failure(code: Code)

  // ---- the stream ----

  datatype Event = Data(chunk: seq<Byte>) | End | StreamError | TimerFired

  function Received(events: seq<Event>): seq<Byte> {
    if events == [] then [] else (if events[0].Data? then events[0].chunk else []) + Received(events[1..])
  }

  lemma {:induction false} ReceivedSnoc(events: seq<Event>, e: Event)
    ensures Received(events + [e]) == Received(events) + if e.Data? then e.chunk else []
  {
    if events == [] {
      assert [e][1..] == [];
      Nil(Received([e]));
      Nil(if e.Data? then e.chunk else []);
    } else {
      Tail(events, [e]);
      ReceivedSnoc(events[1..], e);
      Assoc(if events[0].Data? then events[0].chunk else [], Received(events[1..]), if e.Data? then e.chunk else []);
    }
  }

  /** Exactly these bytes arrive, in whatever chunks, and then the stream ends. */
  ghost predicate Delivers(events: seq<Event>, bytes: seq<Byte>) {
    exists k :: 0 <= k < |events| && DeliversAt(events, k, bytes)
  }

  ghost predicate DeliversAt(events: seq<Event>, k: nat, bytes: seq<Byte>)
    requires k < |events|
  {
    events[k] == End && (forall i | 0 <= i < k :: events[i].Data?) && Received(events[..k]) == bytes
  }

  /** The closure of one pending read: what its event handlers share. */
  class FrameStream {
    const maximumFrame: nat
    var bytes: seq<Byte>           // the chunks so far
    var total: nat
    var settled: Option<Outcome>   // the first verdict stays

    constructor (maximumFrame: nat)
      ensures this.maximumFrame == maximumFrame && bytes == [] && total == 0 && settled.None?
    {
      this.maximumFrame, bytes, total, settled := maximumFrame, [], 0, None;
    }

    method Reject(code: Code)
      modifies this`settled
      ensures settled == if old(settled).None? then Some(Failure(code)) else old(settled)
    {
      if settled.None? { settled := Some(Failure(code)); }
    }

    method OnEvent(e: Event)
      modifies this
      ensures old(settled).Some? ==> settled == old(settled)
      ensures old(settled).None? ==>
                match e
                case Data(c) => && total == old(total) + |c|
                                && (if total > maximumFrame then settled == Some(Failure(TooLarge))
                                    else settled.None? && bytes == old(bytes) + c)
                case End => settled == Some(Payload(old(bytes)))
                case StreamError => settled == Some(Failure(ReadFailed))
                case TimerFired => settled == Some(Failure(Timeout))
    {
      match e {
        case Data(c) =>
          total := total + |c|;
          if total > maximumFrame { Reject(TooLarge); } else { bytes := bytes + c; }
        case End => if settled.None? { settled := Some(Payload(bytes)); }
        case StreamError => Reject(ReadFailed);
        case TimerFired => Reject(Timeout);
      }
    }
  }

  /** Before the verdict all events were chunks that fit; after it the verdict says which event decided. */
  ghost predicate Collected(events: seq<Event>, n: nat, max: nat, bytes: seq<Byte>, settled: Option<Outcome>)
    requires n <= |events|
  {
    match settled
    case None => (forall i | 0 <= i < n :: events[i].Data?) && bytes == Received(events[..n]) && |bytes| <= max
    case Some(Payload(p)) => |p| <= max && exists k :: 0 <= k < n && DeliversAt(events, k, p)
    case Some(Failure(c)) =>
      && (forall k, p :: 0 <= k < |events| && DeliversAt(events, k, p) ==> |p| > max)
      && exists k :: 0 <= k < n && FailsAt(events, k, max, c)
  }

  /** After chunks that fit: a chunk too many, an error or the timer, each with its own code. */
  ghost predicate FailsAt(events: seq<Event>, k: nat, max: nat, c: Code)
    requires k < |events|
  {
    && (forall i | 0 <= i < k :: events[i].Data?) && |Received(events[..k])| <= max
    && match events[k]
       case Data(_) => c == TooLarge && |Received(events[..k + 1])| > max
       case StreamError => c == ReadFailed
       case TimerFired => c == Timeout
       case End => false
  }

  ghost predicate Fails(events: seq<Event>, max: nat, c: Code) {
    exists k :: 0 <= k < |events| && FailsAt(events, k, max, c)
  }

  /** Nothing has decided yet. */
  ghost predicate Pending(events: seq<Event>, max: nat) {
    (forall i | 0 <= i < |events| :: events[i].Data?) && |Received(events)| <= max
  }

  /** All events of a stream, to the verdict. */
  method CollectStream(events: seq<Event>, max: nat) returns (r: Option<Outcome>)
    ensures r.Some? && r.value.Payload? ==> Delivers(events, r.value.bytes) && |r.value.bytes| <= max
    ensures (r.None? || r.value.Failure?) ==> forall p :: Delivers(events, p) ==> |p| > max
    ensures r.None? ==> Pending(events, max)
    ensures r.Some? && r.value.Failure? ==> Fails(events, max, r.value.code)
  {
    hide Received;
    var s := new FrameStream(max);
    ReceivedNothing(events);
    var n := 0;
    while n < |events|
      invariant n <= |events| && s.maximumFrame == max && Collected(events, n, max, s.bytes, s.settled)
      invariant s.settled.None? ==> s.total == |s.bytes|
    {
      ghost var bytes, settled := s.bytes, s.settled;
      s.OnEvent(events[n]);
      assert events[..n + 1] == events[..n] + [events[n]];
      ReceivedSnoc(events[..n], events[n]);
      if settled.None? && s.settled.Some? {
        if events[n] == End {
          assert DeliversAt(events, n, bytes);
        } else {
          Stopped(events, n, max);
          assert FailsAt(events, n, max, s.settled.value.code);
        }
      }
      n := n + 1;
    }
    assert events[..n] == events;
    r := s.settled;
  }

  lemma ReceivedNothing(events: seq<Event>)
    ensures events[..0] == [] && Received(events[..0]) == []
  {
  }

  /** A chunk too many, an error or the timer: whatever follows, no acceptable delivery remains. */
  lemma Stopped(events: seq<Event>, n: nat, max: nat)
    requires n < |events| && (forall i | 0 <= i < n :: events[i].Data?) && events[n] != End
    requires events[n].Data? ==> |Received(events[..n + 1])| > max
    ensures forall k, p :: 0 <= k < |events| && DeliversAt(events, k, p) ==> |p| > max
  {
    forall k, p | 0 <= k < |events| && DeliversAt(events, k, p) ensures |p| > max {
      assert k > n;
      ReceivedGrows(events[..k], n + 1);
      assert events[..k][..n + 1] == events[..n + 1];
    }
  }

  lemma {:induction false} ReceivedGrows(events: seq<Event>, n: nat)
    requires n <= |events|
    ensures |Received(events[..n])| <= |Received(events)|
  {
    if n > 0 {
      ReceivedGrows(events[1..], n - 1);
      assert events[..n][1..] == events[1..][..n - 1];
    }
  }

  // ---- the frame ----

  /** The header checks, in the order they are made. */
  function ParseFrame(bytes: seq<Byte>, magic: seq<Byte>, max: nat): Outcome {
    if |bytes| < HEADER || bytes[..4] != magic || bytes[4] != 1 then Failure(InvalidHeader)
    else
      var declared := FromBig(bytes[5..9]);
      if declared < 1 || declared > max || |bytes| != HEADER + declared then Failure(InvalidLength)
      else Payload(bytes[9..])
  }

  /** Parsing accepts exactly the encodings of payloads of 1 to `max` bytes, and gives the payload back. */
  lemma ParseIs(bytes: seq<Byte>, magic: seq<Byte>, max: nat, p: seq<Byte>)
    requires |magic| == 4 && max < 0x1_0000_0000
    ensures ParseFrame(bytes, magic, max) == Payload(p) <==> bytes == Frame(magic, p) && 1 <= |p| <= max
  {
    hide Big, FromBig;
    Widths();
    if |bytes| >= HEADER {
      FromBigInverse(bytes[5..9]);
      assert bytes == bytes[..4] + [bytes[4]] + bytes[5..9] + bytes[9..];
    }
    FrameSlices(magic, p);
    if |p| <= max { BigInverse(|p|, 4); }
  }

  /** The header is right up to the length field, which is there. */
  ghost predicate Headed(bytes: seq<Byte>, magic: seq<Byte>) {
    exists rest: seq<Byte> :: |rest| >= 4 && bytes == magic + [1] + rest
  }

  /** Why bytes that are no frame are refused: for their header first, and then for their length. */
  ghost predicate Malformed(bytes: seq<Byte>, magic: seq<Byte>, max: nat, c: Code) {
    if Headed(bytes, magic) then
      c == InvalidLength && forall p: seq<Byte> | 1 <= |p| <= max :: bytes != Frame(magic, p)
    else c == InvalidHeader
  }

  lemma ParseFails(bytes: seq<Byte>, magic: seq<Byte>, max: nat)
    requires |magic| == 4 && max < 0x1_0000_0000
    ensures var o := ParseFrame(bytes, magic, max); o.Failure? ==> Malformed(bytes, magic, max, o.code)
  {
    hide Frame, FromBig;
    if |bytes| >= HEADER && bytes[..4] == magic && bytes[4] == 1 {
      assert bytes == magic + [1] + bytes[5..];
    }
    if rest: seq<Byte> :| |rest| >= 4 && bytes == magic + [1] + rest {
      assert bytes[..4] == magic && bytes[4] == 1;
    }
    forall p: seq<Byte>
      ensures ParseFrame(bytes, magic, max) == Payload(p) <==> bytes == Frame(magic, p) && 1 <= |p| <= max
    {
      ParseIs(bytes, magic, max, p);
    }
  }

  lemma FrameSlices(magic: seq<Byte>, p: seq<Byte>)
    requires |magic| == 4
    ensures var f := Frame(magic, p);
            |f| == HEADER + |p| && f[..4] == magic && f[4] == 1 && f[5..9] == Big(|p|, 4) && f[9..] == p
  {
    hide Big;
  }

  /** A whole read: a payload comes back exactly when its own frame, no more and no less, was delivered. */
  method ReadFrame(events: seq<Event>, magic: seq<Byte>, max: nat) returns (r: Option<Outcome>)
    requires |magic| == 4 && max < 0x1_0000_0000 - HEADER
    ensures r.Some? && r.value.Payload? ==> Delivers(events, Frame(magic, r.value.bytes)) && 1 <= |r.value.bytes| <= max
    ensures forall p: seq<Byte> | 1 <= |p| <= max && Delivers(events, Frame(magic, p)) :: r == Some(Payload(p))
    ensures r.None? ==> Pending(events, HEADER + max)
    ensures r.Some? && r.value.Failure? ==>
              || Fails(events, HEADER + max, r.value.code)
              || exists bytes :: Delivers(events, bytes) && Malformed(bytes, magic, max, r.value.code)
  {
    hide Delivers, Frame, ParseFrame, Malformed, Fails, Pending;
    r := CollectStream(events, HEADER + max);
    forall p: seq<Byte> | 1 <= |p| <= max && Delivers(events, Frame(magic, p))
      ensures r.Some? && r.value == Payload(Frame(magic, p))
    {
      FrameSlices(magic, p);
      if r.Some? && r.value.Payload? { DeliversOnce(events, r.value.bytes, Frame(magic, p)); }
    }
    if r.Some? && r.value.Payload? {
      var bytes := r.value.bytes;
      r := Some(ParseFrame(bytes, magic, max));
      ParseFails(bytes, magic, max);
      forall p: seq<Byte> ensures r == Some(Payload(p)) <==> bytes == Frame(magic, p) && 1 <= |p| <= max {
        ParseIs(bytes, magic, max, p);
      }
    }
  }

  lemma DeliversOnce(events: seq<Event>, a: seq<Byte>, b: seq<Byte>)
    requires Delivers(events, a) && Delivers(events, b)
    ensures a == b
  {
    var i :| 0 <= i < |events| && DeliversAt(events, i, a);
    var k :| 0 <= k < |events| && DeliversAt(events, k, b);
    assert i == k;
  }

  /** No stream is a token frame and a policy frame at once. */
  lemma NeverConfused(events: seq<Event>, token: seq<Byte>, policy: seq<Byte>)
    requires Delivers(events, Frame(TOKEN_MAGIC, token))
    ensures !Delivers(events, Frame(POLICY_MAGIC, policy))
  {
    hide Delivers, Frame;
    assert TOKEN_MAGIC[3] != POLICY_MAGIC[3];
    if Delivers(events, Frame(POLICY_MAGIC, policy)) {
      DeliversOnce(events, Frame(TOKEN_MAGIC, token), Frame(POLICY_MAGIC, policy));
      FrameSlices(TOKEN_MAGIC, token);
      FrameSlices(POLICY_MAGIC, policy);
      assert false;
    }
  }

  datatype Token = Token(text: seq<Byte>) | TokenFailure(code: Code) | InvalidEncoding

  /** A token is a frame whose payload is graphic ASCII. */
  method ReadTokenFrame(events: seq<Event>) returns (r: Option<Token>)
    ensures forall t: seq<Byte> ::
              r == Some(Token(t)) <==>
              && 1 <= |t| <= MAX_TOKEN && (forall i | 0 <= i < |t| :: 0x21 <= t[i] <= 0x7e)
              && Delivers(events, Frame(TOKEN_MAGIC, t))
    ensures r == Some(InvalidEncoding) ==>
              exists t: seq<Byte> ::
                && 1 <= |t| <= MAX_TOKEN && Delivers(events, Frame(TOKEN_MAGIC, t))
                && exists i | 0 <= i < |t| :: !(0x21 <= t[i] <= 0x7e)
    ensures r.Some? && r.value.TokenFailure? ==>
              || Fails(events, HEADER + MAX_TOKEN, r.value.code)
              || exists bytes :: Delivers(events, bytes) && Malformed(bytes, TOKEN_MAGIC, MAX_TOKEN, r.value.code)
  {
    hide Delivers, Frame, Malformed, Fails, Pending;
    var f := ReadFrame(events, TOKEN_MAGIC, MAX_TOKEN);
    if f.None? { return None; }
    match f.value {
      case Failure(c) => r := Some(TokenFailure(c));
      case Payload(p) =>
        for i := 0 to |p|
          invariant forall k | 0 <= k < i :: 0x21 <= p[k] <= 0x7e
        {
          if p[i] < 0x21 || p[i] > 0x7e { return Some(InvalidEncoding); }
        }
        r := Some(Token(p));
    }
  }
}
