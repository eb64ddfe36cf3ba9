/** Supervising the proxy runtime: one ready record, then silence, until it exits. */
module Supervisor {
  import opened Basics
  import opened Sequences

  const MAX_READY_BYTES: nat := 512
  const NEWLINE: Byte := 10

  /** What the event loop may deliver, in any order and any number. */
  datatype Event =
    | Stdout(chunk: seq<Byte>) | Stderr
    | StdoutError | StderrError
    | TimerFired
    | ListenerUp | ListenerDown           // the outcome of the loopback connection
    | Exit(code: Option<int>, signaled: bool)
    | CloseCalled

  datatype ExitResult = ExitResult(expected: bool, code: Option<int>, signaled: bool)

  /** The start in progress, the handle handed out, or the start given up. */
  datatype Phase = Reading | Connecting(readyPort: nat) | Serving(port: nat) | Failed

  function Output(es: seq<Event>): seq<Byte> {
    if es == [] then [] else Output(es[..|es| - 1]) + if es[|es| - 1].Stdout? then es[|es| - 1].chunk else []
  }

  predicate HasNewline(out: seq<Byte>) { exists i :: 0 <= i < |out| && out[i] == NEWLINE }

  /** A start of a record, or one whole valid record: nothing follows its newline. */
  predicate Fine(out: seq<Byte>, parse: seq<Byte> -> Option<nat>) {
    && |out| <= MAX_READY_BYTES
    && (HasNewline(out) ==> FirstNewline(out) == |out| - 1 && parse(out[..|out| - 1]).Some?)
  }

  function FirstNewline(out: seq<Byte>): (i: nat)
    requires HasNewline(out)
    ensures i < |out| && out[i] == NEWLINE && forall k | 0 <= k < i :: out[k] != NEWLINE
  {
    if out[0] == NEWLINE then 0 else
    assert HasNewline(out[1..]) by {
      var i :| 0 <= i < |out| && out[i] == NEWLINE; assert out[1..][i - 1] == NEWLINE;
    }
    FirstNewline(out[1..]) + 1
  }

  ghost predicate OneRecord(out: seq<Byte>, parse: seq<Byte> -> Option<nat>, port: nat) {
    HasNewline(out) && Fine(out, parse) && parse(out[..|out| - 1]) == Some(port)
  }

  /** Nothing on standard error, no broken pipe, no exit. */
  ghost predicate Quiet(es: seq<Event>) {
    forall i | 0 <= i < |es| :: !es[i].Stderr? && !es[i].StdoutError? && !es[i].StderrError? && !es[i].Exit?
  }

  /** No time-out and no refused connection either. */
  ghost predicate Lucky(es: seq<Event>) {
    forall i | 0 <= i < |es| :: !es[i].TimerFired? && !es[i].ListenerDown?
  }

  lemma OutputSnoc(es: seq<Event>, e: Event)
    ensures Output(es + [e]) == Output(es) + if e.Stdout? then e.chunk else []
  {
    assert (es + [e])[..|es|] == es;
  }

  /** What was not fine stays so, whatever is written next. */
  lemma FineBefore(a: seq<Byte>, b: seq<Byte>, parse: seq<Byte> -> Option<nat>)
    requires Fine(a + b, parse)
    ensures Fine(a, parse) && (HasNewline(a) ==> b == [])
  {
    if HasNewline(a) {
      var i := FirstNewline(a);
      assert (a + b)[i] == NEWLINE;
      var j := FirstNewline(a + b);
      assert j <= i;
      Nil(a);
    }
  }

  predicate Loud(e: Event) { e.Stderr? || e.StdoutError? || e.StderrError? || e.Exit? }

  /** One event more. */
  lemma Grew(es: seq<Event>, e: Event)
    ensures Output(es + [e]) == Output(es) + if e.Stdout? then e.chunk else []
    ensures Quiet(es + [e]) <==> Quiet(es) && !Loud(e)
    ensures Lucky(es + [e]) <==> Lucky(es) && !e.TimerFired? && !e.ListenerDown?
  {
    var all := es + [e];
    OutputSnoc(es, e);
    assert forall i | 0 <= i < |es| :: all[i] == es[i];
    assert all[|es|] == e;
  }

  /** Bad luck, noise and unfit output are never made good. */
  ghost predicate Spoiled(es: seq<Event>, parse: seq<Byte> -> Option<nat>) {
    !Quiet(es) || !Lucky(es) || !Fine(Output(es), parse)
  }

  lemma SpoiledStays(es: seq<Event>, e: Event, parse: seq<Byte> -> Option<nat>)
    requires Spoiled(es, parse)
    ensures Spoiled(es + [e], parse)
  {
    hide Quiet, Lucky, Fine, Output;
    Grew(es, e);
    Nil(Output(es));
    if Fine(Output(es + [e]), parse) { FineBefore(Output(es), if e.Stdout? then e.chunk else [], parse); }
  }

  /** No connection succeeded after the record was complete. */
  ghost predicate Unconnected(es: seq<Event>) {
    forall i | 0 <= i < |es| && es[i] == ListenerUp :: !HasNewline(Output(es[..i]))
  }

  lemma UnconnectedStays(es: seq<Event>, e: Event)
    ensures Unconnected(es + [e]) <==> Unconnected(es) && (e == ListenerUp ==> !HasNewline(Output(es)))
  {
    hide HasNewline, Output;
    var all := es + [e];
    assert forall i | 0 <= i < |es| :: all[i] == es[i] && all[..i] == es[..i];
    assert all[|es|] == e && all[..|es|] == es;
  }

  lemma NoNewlineYet(es: seq<Event>)
    requires !HasNewline(Output(es))
    ensures Unconnected(es)
  {
    hide Output;
    forall i | 0 <= i < |es| ensures !HasNewline(Output(es[..i])) {
      OutputPrefix(es, i);
      var a, b := Output(es[..i]), Output(es);
      assert forall k | 0 <= k < |a| :: a[k] == b[k];
    }
  }

  lemma {:induction false} OutputPrefix(es: seq<Event>, n: nat)
    requires n <= |es|
    ensures Output(es[..n]) <= Output(es)
  {
    if n < |es| {
      OutputPrefix(es[..|es| - 1], n);
      assert es[..|es| - 1][..n] == es[..n];
    } else {
      assert es[..n] == es;
    }
  }

  // ---- what happened, as a property of the events alone ----

  /** Anything that is not allowed once the record is complete, short of an exit. */
  predicate Noise(e: Event) { e.Stdout? || e.Stderr? || e.StdoutError? || e.StderrError? }

  predicate FromListener(e: Event) { e == ListenerUp || e == ListenerDown }

  /** Nothing that could have ended the reading, apart from output. */
  ghost predicate Patient(es: seq<Event>) { Quiet(es) && forall i | 0 <= i < |es| :: !es[i].TimerFired? }

  /** The record was complete after `n` events, with nothing amiss until then. */
  ghost predicate RecordAt(es: seq<Event>, parse: seq<Byte> -> Option<nat>, n: nat) {
    && 0 < n <= |es| && Patient(es[..n]) && HasNewline(Output(es[..n])) && Fine(Output(es[..n]), parse)
    && !HasNewline(Output(es[..n - 1]))
  }

  /** So far only the beginning of a record. */
  ghost predicate StillReading(es: seq<Event>, parse: seq<Byte> -> Option<nat>) {
    Patient(es) && Fine(Output(es), parse) && !HasNewline(Output(es))
  }

  /** The start was given up while its record was being read. */
  ghost predicate GivenUpReading(es: seq<Event>, parse: seq<Byte> -> Option<nat>) {
    (!Patient(es) || !Fine(Output(es), parse)) && forall n: nat :: !RecordAt(es, parse, n)
  }

  ghost predicate NoiseSince(es: seq<Event>, n: nat) { exists k :: n <= k < |es| && Noise(es[k]) }

  ghost predicate ExitIn(es: seq<Event>) { exists k :: 0 <= k < |es| && es[k].Exit? }

  ghost predicate ClosedSince(es: seq<Event>, n: nat) { exists k :: n <= k < |es| && es[k] == CloseCalled }

  /** The loopback connection was decided at `k`, the record having been complete at `n`. */
  ghost predicate DecidedAt(es: seq<Event>, n: nat, k: nat) {
    n <= k < |es| && FromListener(es[k]) && forall i | n <= i < k :: !FromListener(es[i])
  }

  /** Decided in favour: connected, with neither noise nor exit before. */
  ghost predicate HandedOutAt(es: seq<Event>, n: nat, k: nat) {
    DecidedAt(es, n, k) && es[k] == ListenerUp && !NoiseSince(es[..k], n) && !ExitIn(es[..k])
  }

  /** There was noise after the complete record. */
  ghost predicate Noisy(es: seq<Event>, parse: seq<Byte> -> Option<nat>) {
    exists n :: RecordAt(es, parse, n) && NoiseSince(es, n)
  }

  /** The runtime has been told to stop: the start was given up, or its handle was closed. */
  ghost predicate CloseRequested(es: seq<Event>, parse: seq<Byte> -> Option<nat>) {
    || GivenUpReading(es, parse)
    || exists n, k :: RecordAt(es, parse, n) && DecidedAt(es, n, k) && (HandedOutAt(es, n, k) ==> ClosedSince(es, k))
  }

  /** The first exit. */
  ghost predicate FirstExit(es: seq<Event>, x: nat) { x < |es| && es[x].Exit? && !ExitIn(es[..x]) }

  /** What an exit is to be reported as, from all that came before it. */
  ghost function ExitOf(es: seq<Event>, parse: seq<Byte> -> Option<nat>, x: nat): ExitResult
    requires FirstExit(es, x)
  {
    var before := es[..x];
    ExitResult(CloseRequested(before, parse) && !Noisy(before, parse) && es[x].code == Some(0) && !es[x].signaled,
               es[x].code, es[x].signaled)
  }

  lemma HasNewlineMore(a: seq<Byte>, b: seq<Byte>)
    requires HasNewline(a)
    ensures HasNewline(a + b)
  {
    var i :| 0 <= i < |a| && a[i] == NEWLINE;
    assert (a + b)[i] == NEWLINE;
  }

  /** The record is complete at one moment at most. */
  lemma RecordOnce(es: seq<Event>, parse: seq<Byte> -> Option<nat>, m: nat, n: nat)
    requires RecordAt(es, parse, m) && RecordAt(es, parse, n)
    ensures m == n
  {
    hide Patient, Fine, Output, HasNewline;
    if m < n { NewlineStays(es, m, n - 1); }
    if n < m { NewlineStays(es, n, m - 1); }
  }

  lemma NewlineStays(es: seq<Event>, m: nat, n: nat)
    requires m <= n <= |es| && HasNewline(Output(es[..m]))
    ensures HasNewline(Output(es[..n]))
  {
    hide Output;
    assert es[..n][..m] == es[..m];
    OutputPrefix(es[..n], m);
    var a, b := Output(es[..m]), Output(es[..n]);
    assert b == a + b[|a|..];
    HasNewlineMore(a, b[|a|..]);
  }

  lemma NewlineOfAll(es: seq<Event>, n: nat)
    requires n <= |es| && HasNewline(Output(es[..n]))
    ensures HasNewline(Output(es))
  {
    hide Output;
    NewlineStays(es, n, |es|);
    assert es[..|es|] == es;
  }

  lemma RecordStays(es: seq<Event>, e: Event, parse: seq<Byte> -> Option<nat>, n: nat)
    requires n <= |es|
    ensures RecordAt(es + [e], parse, n) <==> RecordAt(es, parse, n)
  {
    hide Patient, Fine, Output, HasNewline;
    var all := es + [e];
    assert all[..n] == es[..n];
    if n > 0 { assert all[..n - 1] == es[..n - 1]; }
  }

  lemma PatientSnoc(es: seq<Event>, e: Event)
    ensures Patient(es + [e]) <==> Patient(es) && !Loud(e) && !e.TimerFired?
  {
    hide Quiet;
    var all := es + [e];
    Grew(es, e);
    assert forall i | 0 <= i < |es| :: all[i] == es[i];
    assert all[|es|] == e;
  }

  lemma ReadingHasNoRecord(es: seq<Event>, parse: seq<Byte> -> Option<nat>)
    requires StillReading(es, parse)
    ensures forall n: nat :: !RecordAt(es, parse, n)
  {
    hide Patient, Fine, Output, HasNewline;
    forall n: nat ensures !RecordAt(es, parse, n) {
      if RecordAt(es, parse, n) { NewlineOfAll(es, n); }
    }
  }

  /** While reading, one more event goes on reading, completes the record, or makes the start fail. */
  lemma ReadingNext(es: seq<Event>, e: Event, parse: seq<Byte> -> Option<nat>)
    requires StillReading(es, parse)
    ensures var all := es + [e];
            var good := !Loud(e) && !e.TimerFired? && Fine(Output(all), parse);
            && (good && !HasNewline(Output(all)) ==> StillReading(all, parse))
            && (good && HasNewline(Output(all)) ==> RecordAt(all, parse, |all|))
            && (!good ==> GivenUpReading(all, parse))
  {
    hide Patient, Fine, Output, HasNewline;
    var all := es + [e];
    PatientSnoc(es, e);
    ReadingHasNoRecord(es, parse);
    assert all[..|all|] == all && all[..|es|] == es;
    forall n: nat | n <= |es| ensures !RecordAt(all, parse, n) { RecordStays(es, e, parse, n); }
  }

  lemma GivenUpStays(es: seq<Event>, e: Event, parse: seq<Byte> -> Option<nat>)
    requires GivenUpReading(es, parse)
    ensures GivenUpReading(es + [e], parse)
  {
    hide Patient, Fine, Output, HasNewline;
    var all := es + [e];
    PatientSnoc(es, e);
    OutputSnoc(es, e);
    var more := if e.Stdout? then e.chunk else [];
    if Fine(Output(all), parse) { FineBefore(Output(es), more, parse); }
    assert all[..|all|] == all;
    forall n: nat ensures !RecordAt(all, parse, n) {
      if n <= |es| { RecordStays(es, e, parse, n); }
    }
  }

  lemma NoiseSnoc(es: seq<Event>, e: Event, n: nat)
    requires n <= |es|
    ensures NoiseSince(es + [e], n) <==> NoiseSince(es, n) || Noise(e)
    ensures ExitIn(es + [e]) <==> ExitIn(es) || e.Exit?
    ensures ClosedSince(es + [e], n) <==> ClosedSince(es, n) || e == CloseCalled
  {
    var all := es + [e];
    assert all[|es|] == e && forall i | 0 <= i < |es| :: all[i] == es[i];
  }

  lemma DecidedSnoc(es: seq<Event>, e: Event, n: nat, k: nat)
    requires n <= |es| && k <= |es|
    ensures k < |es| ==>
              && (DecidedAt(es + [e], n, k) <==> DecidedAt(es, n, k))
              && (HandedOutAt(es + [e], n, k) <==> HandedOutAt(es, n, k))
    ensures DecidedAt(es + [e], n, |es|) <==> Undecided(es, n) && FromListener(e)
    ensures HandedOutAt(es + [e], n, |es|) <==> Undecided(es, n) && e == ListenerUp && !NoiseSince(es, n) && !ExitIn(es)
    ensures Undecided(es + [e], n) <==> Undecided(es, n) && !FromListener(e)
  {
    hide NoiseSince, ExitIn;
    var all := es + [e];
    assert all[|es|] == e && all[..|es|] == es && forall i | 0 <= i < |es| :: all[i] == es[i];
    assert all[..k] == es[..k];
  }

  ghost predicate Undecided(es: seq<Event>, n: nat) { forall i | n <= i < |es| :: !FromListener(es[i]) }

  /** Where a start stands, in terms of the events: what follows from it about noise and requests. */
  lemma StandsReading(es: seq<Event>, parse: seq<Byte> -> Option<nat>)
    ensures StillReading(es, parse) ==> !Noisy(es, parse) && !CloseRequested(es, parse)
    ensures GivenUpReading(es, parse) ==> !Noisy(es, parse) && CloseRequested(es, parse)
  {
    hide Patient, Fine, Output, HasNewline;
    if StillReading(es, parse) { ReadingHasNoRecord(es, parse); }
  }

  lemma StandsAfter(es: seq<Event>, parse: seq<Byte> -> Option<nat>, n: nat)
    requires RecordAt(es, parse, n)
    ensures Noisy(es, parse) <==> NoiseSince(es, n)
    ensures !GivenUpReading(es, parse)
    ensures CloseRequested(es, parse) <==>
            exists k :: DecidedAt(es, n, k) && (HandedOutAt(es, n, k) ==> ClosedSince(es, k))
  {
    hide RecordAt, NoiseSince, DecidedAt, HandedOutAt, ClosedSince;
    forall m: nat | RecordAt(es, parse, m) ensures m == n { RecordOnce(es, parse, m, n); }
  }

  lemma DecidedOnce(es: seq<Event>, n: nat, j: nat, k: nat)
    requires DecidedAt(es, n, j) && DecidedAt(es, n, k)
    ensures j == k
  {
  }

  lemma HandedOutIsDecided(es: seq<Event>, n: nat, k: nat)
    requires HandedOutAt(es, n, k)
    ensures DecidedAt(es, n, k)
  {
  }

  lemma FirstExitSnoc(es: seq<Event>, e: Event, parse: seq<Byte> -> Option<nat>, x: nat)
    ensures FirstExit(es, x) ==> FirstExit(es + [e], x) && ExitOf(es + [e], parse, x) == ExitOf(es, parse, x)
    ensures e.Exit? && !ExitIn(es) ==>
              && FirstExit(es + [e], |es|)
              && ExitOf(es + [e], parse, |es|) ==
                 ExitResult(CloseRequested(es, parse) && !Noisy(es, parse) && e.code == Some(0) && !e.signaled,
                            e.code, e.signaled)
  {
    hide CloseRequested, Noisy, ExitIn;
    var all := es + [e];
    assert all[|es|] == e && all[..|es|] == es;
    if x < |es| { assert all[x] == es[x] && all[..x] == es[..x]; }
  }

  /** All of it for one event more. */
  lemma Next(es: seq<Event>, e: Event, parse: seq<Byte> -> Option<nat>, n: nat, k: nat)
    requires n <= |es|
    ensures var all := es + [e];
            && (RecordAt(es, parse, n) ==> RecordAt(all, parse, n))
            && (GivenUpReading(es, parse) ==> GivenUpReading(all, parse))
            && (NoiseSince(all, n) <==> NoiseSince(es, n) || Noise(e))
            && (ExitIn(all) <==> ExitIn(es) || e.Exit?)
            && (HandedOutAt(es, n, k) ==>
                  HandedOutAt(all, n, k) && (ClosedSince(all, k) <==> ClosedSince(es, k) || e == CloseCalled))
            && (DecidedAt(es, n, k) && !HandedOutAt(es, n, k) ==> DecidedAt(all, n, k) && !HandedOutAt(all, n, k))
            && (Undecided(all, n) <==> Undecided(es, n) && !FromListener(e))
            && (DecidedAt(all, n, |es|) <==> Undecided(es, n) && FromListener(e))
            && (HandedOutAt(all, n, |es|) <==> Undecided(es, n) && e == ListenerUp && !NoiseSince(es, n) && !ExitIn(es))
  {
    RecordStays(es, e, parse, n);
    if GivenUpReading(es, parse) { GivenUpStays(es, e, parse); }
    NoiseSnoc(es, e, n);
    DecidedSnoc(es, e, n, |es|);
    if HandedOutAt(es, n, k) { HandedOutIsDecided(es, n, k); }
    if DecidedAt(es, n, k) { DecidedSnoc(es, e, n, k); NoiseSnoc(es, e, k); }
  }

  lemma ExitBefore(es: seq<Event>, x: nat, y: nat)
    requires x < y <= |es| && es[x].Exit?
    ensures ExitIn(es[..y])
  {
    assert es[..y][x].Exit?;
  }

  lemma FirstOnce(es: seq<Event>, x: nat, y: nat)
    requires FirstExit(es, x) && FirstExit(es, y)
    ensures x == y
  {
    if x < y { ExitBefore(es, x, y); }
    if y < x { ExitBefore(es, y, x); }
  }

  /**
    Noise can come before an expected exit only if the start was given up while its record was being read: otherwise
    an expected exit has one valid record before it and nothing else.
   */
  lemma ExpectedExitIsQuiet(es: seq<Event>, parse: seq<Byte> -> Option<nat>, x: nat)
    requires FirstExit(es, x) && ExitOf(es, parse, x).expected
    ensures || GivenUpReading(es[..x], parse)
            || exists n: nat :: RecordAt(es[..x], parse, n) && forall k | n <= k < x :: !Noise(es[k])
  {
    hide GivenUpReading, RecordAt, DecidedAt, HandedOutAt, ClosedSince;
    var before := es[..x];
    if !GivenUpReading(before, parse) {
      var n: nat, k: nat :| RecordAt(before, parse, n) && DecidedAt(before, n, k) &&
                            (HandedOutAt(before, n, k) ==> ClosedSince(before, k));
      assert !NoiseSince(before, n);
      forall i | n <= i < x ensures !Noise(es[i]) { assert before[i] == es[i]; }
    }
  }

  lemma NotClosedYet(es: seq<Event>)
    ensures !ClosedSince(es + [ListenerUp], |es|)
  {
    var all := es + [ListenerUp];
    assert all[|es|] == ListenerUp;
  }

  lemma NothingSinceRecord(es: seq<Event>, parse: seq<Byte> -> Option<nat>)
    requires RecordAt(es, parse, |es|)
    ensures !NoiseSince(es, |es|) && Undecided(es, |es|)
  {
  }

  class RuntimeSupervisor {
    const parse: seq<Byte> -> Option<nat>
    var bytes: seq<Byte>
    var phase: Phase
    var attached: bool             // the output handlers are still installed
    var active: bool
    var outputViolation: bool
    var closeRequested: bool
    var exit: Option<ExitResult>
    ghost var seen: seq<Event>
    ghost var ready: nat           // how many events had been seen when the record was complete
    ghost var decided: nat         // and when the loopback connection was decided
    ghost var last: Option<nat>    // which event was the first exit

    constructor (parse: seq<Byte> -> Option<nat>)
      ensures Valid() && Recounts() && seen == [] && this.parse == parse && phase == Reading && exit.None?
    {
      this.parse := parse;
      bytes, phase, attached := [], Reading, true;
      active, outputViolation, closeRequested, exit := false, false, false, None;
      seen, ready, decided, last := [], 0, 0, None;
    }

    /** No output, error or exit since the record was complete. */
    ghost predicate Silent() reads this { Quiet(seen) && ready <= |seen| && Output(seen) == Output(seen[..ready]) }

    ghost predicate Valid() reads this {
      && ready <= |seen|
      && (active <==> phase.Serving? && !outputViolation && exit.None?)
      && (exit.Some? && exit.value.expected ==> closeRequested && exit.value.code == Some(0) && !exit.value.signaled)
      && match phase
         case Reading =>
           && bytes == Output(seen) && !HasNewline(bytes) && |bytes| <= MAX_READY_BYTES
           && Quiet(seen) && !outputViolation && exit.None? && !closeRequested && attached
         case Connecting(port) =>
           && OneRecord(Output(seen[..ready]), parse, port)
           && (!outputViolation && exit.None? <==> Silent())
           && attached
           && Unconnected(seen)
         case Serving(port) => OneRecord(Output(seen[..ready]), parse, port) &&
                               (!outputViolation && exit.None? <==> Silent()) && attached
         case Failed => closeRequested && Spoiled(seen, parse)
    }

    /** The fields say what the events say. */
    ghost predicate Recounts() reads this {
      && (if phase == Reading then StillReading(seen, parse)
          else if !attached then phase == Failed && GivenUpReading(seen, parse)
          else RecordAt(seen, parse, ready))
      && (outputViolation <==> phase != Reading && attached && NoiseSince(seen, ready))
      && (exit.Some? <==> ExitIn(seen)) && (exit.Some? <==> last.Some?)
      && (last.Some? ==> FirstExit(seen, last.value) && exit == Some(ExitOf(seen, parse, last.value)))
      && (phase.Connecting? ==> Undecided(seen, ready) && !closeRequested)
      && (phase.Serving? ==> HandedOutAt(seen, ready, decided) && (closeRequested <==> ClosedSince(seen, decided)))
      && (phase == Failed && attached ==> DecidedAt(seen, ready, decided) && !HandedOutAt(seen, ready, decided))
      && (phase == Failed ==> closeRequested) && (phase == Reading ==> !closeRequested)
    }

    /** Nothing but the log has changed since, and the event is none that the present phase reacts to. */
    twostate lemma Recounting(e: Event)
      requires old(Recounts()) && seen == old(seen) + [e] && old(ready) <= |old(seen)|
      requires ready == old(ready) && decided == old(decided) && last == old(last) && exit == old(exit) && !e.Exit?
      requires phase == old(phase) && phase != Reading && attached == old(attached)
      requires outputViolation == (old(outputViolation) || (Noise(e) && attached))
      requires closeRequested == (old(closeRequested) || (phase.Serving? && e == CloseCalled))
      requires phase.Connecting? ==> !FromListener(e)
      ensures Recounts()
    {
      hide StillReading, GivenUpReading, RecordAt, NoiseSince, ExitIn, FirstExit, ExitOf, HandedOutAt, DecidedAt,
        ClosedSince, Undecided;
      Next(old(seen), e, parse, ready, decided);
      FirstExitSnoc(old(seen), e, parse, if last.Some? then last.value else 0);
    }

    /** The same while the record is being read. */
    twostate lemma RecountingReading(e: Event)
      requires old(Recounts()) && seen == old(seen) + [e] && old(phase) == Reading
      requires decided == old(decided) && last == old(last) && exit == old(exit) && !e.Exit? && !old(exit).Some?
      requires outputViolation == old(outputViolation)
      requires var good := !Loud(e) && !e.TimerFired? && Fine(Output(seen), parse);
               if !good then phase == Failed && !attached && closeRequested
               else && attached && closeRequested == old(closeRequested)
                    && if HasNewline(Output(seen)) then phase.Connecting? && ready == |seen| else phase == Reading
      ensures Recounts()
    {
      hide StillReading, GivenUpReading, RecordAt, NoiseSince, ExitIn, FirstExit, ExitOf, HandedOutAt, DecidedAt,
        ClosedSince, Undecided;
      hide Fine, Output, HasNewline;
      ReadingNext(old(seen), e, parse);
      NoiseSnoc(old(seen), e, 0);
      if phase.Connecting? { NothingSinceRecord(seen, parse); }
    }

    /** The connection decides: the handle is handed out, or the start given up. */
    twostate lemma RecountingDecision(e: Event)
      requires && old(Recounts())
               && seen == old(seen) + [e]
               && old(phase).Connecting?
               && old(ready) <= |old(seen)|
               && FromListener(e)
      requires ready == old(ready) && decided == |old(seen)| && last == old(last) && exit == old(exit)
      requires attached == old(attached) && attached && outputViolation == old(outputViolation)
      requires if e == ListenerUp && !outputViolation && exit.None?
               then phase.Serving? && closeRequested == old(closeRequested)
               else phase == Failed && closeRequested
      ensures Recounts()
    {
      hide StillReading, GivenUpReading, RecordAt, NoiseSince, ExitIn, FirstExit, ExitOf, HandedOutAt, DecidedAt,
        ClosedSince, Undecided;
      Next(old(seen), e, parse, ready, 0);
      FirstExitSnoc(old(seen), e, parse, if last.Some? then last.value else 0);
      if e == ListenerUp { NotClosedYet(old(seen)); }
    }

    /** The runtime is gone: the first exit is on record. */
    twostate lemma RecountingExit(e: Event)
      requires old(Recounts()) && e.Exit? && seen == old(seen) + [e]
      requires && old(ready) <= |old(seen)|
               && ready == old(ready)
               && decided == old(decided)
               && outputViolation == old(outputViolation)
      requires && (old(closeRequested) <==> CloseRequested(old(seen), parse))
               && (outputViolation <==> Noisy(old(seen), parse))
      requires old(phase) == Reading ==> phase == Failed && !attached && closeRequested
      requires old(phase) != Reading ==>
                 phase == old(phase) && attached == old(attached) && closeRequested == old(closeRequested)
      requires old(exit).Some? ==> exit == old(exit) && last == old(last)
      requires old(exit).None? ==> last == Some(|old(seen)|)
      requires old(exit).None? ==>
                 exit == Some(ExitResult(old(closeRequested) && e.code == Some(0) && !e.signaled && !outputViolation,
                                         e.code, e.signaled))
      ensures Recounts()
    {
      hide StillReading, GivenUpReading, RecordAt, NoiseSince, ExitIn, FirstExit, ExitOf, HandedOutAt, DecidedAt,
        ClosedSince, Undecided, CloseRequested, Noisy;
      if old(phase) == Reading { ReadingNext(old(seen), e, parse); }
      Next(old(seen), e, parse, ready, decided);
      FirstExitSnoc(old(seen), e, parse, if old(last).Some? then old(last).value else 0);
    }

    /** Requests and noise so far, from the events alone. */
    lemma Recounted()
      requires Recounts()
      ensures (closeRequested <==> CloseRequested(seen, parse)) && (outputViolation <==> Noisy(seen, parse))
    {
      hide StillReading, GivenUpReading, RecordAt, NoiseSince, ExitIn, FirstExit, ExitOf, HandedOutAt, ClosedSince,
        CloseRequested, Noisy;
      StandsReading(seen, parse);
      if phase != Reading && attached {
        StandsAfter(seen, parse, ready);
        forall k: nat | DecidedAt(seen, ready, k) && phase != Reading && !phase.Connecting? ensures k == decided {
          if phase.Serving? { HandedOutIsDecided(seen, ready, decided); }
          DecidedOnce(seen, ready, k, decided);
        }
        if phase.Serving? { HandedOutIsDecided(seen, ready, decided); }
      }
    }

    /** The exit on record is that of the first exit event. */
    lemma RecountedExit()
      requires Recounts()
      ensures exit.Some? <==> ExitIn(seen)
      ensures forall x: nat :: FirstExit(seen, x) ==> exit == Some(ExitOf(seen, parse, x))
    {
      hide StillReading, GivenUpReading, RecordAt, NoiseSince, ExitOf, HandedOutAt, DecidedAt, ClosedSince, Undecided;
      forall x: nat | FirstExit(seen, x) ensures exit == Some(ExitOf(seen, parse, x)) {
        assert seen[x].Exit?;
        FirstOnce(seen, x, last.value);
      }
    }

    /** Beyond recovery. */
    predicate Dead() reads this { phase == Failed || (phase != Reading && (outputViolation || exit.Some?)) }

    /** The start fails: the runtime is told to stop, and no handle is ever handed out. */
    method Fail()
      modifies this`phase, this`closeRequested
      ensures phase == Failed && closeRequested
    {
      phase, closeRequested := Failed, true;
    }

    method RejectUnexpectedOutput()
      modifies this`outputViolation, this`active
      ensures outputViolation && !active
    {
      outputViolation, active := true, false;
    }

    ghost method Saw(e: Event)
      modifies this`seen
      ensures seen == old(seen) + [e]
    {
      seen := seen + [e];
    }

    /** A chunk of standard output. */
    method OnStdout(chunk: seq<Byte>)
      requires Valid() && Recounts() && chunk != []
      modifies this
      ensures Valid() && Recounts() && seen == old(seen) + [Stdout(chunk)]
      ensures exit == old(exit) && closeRequested == (old(closeRequested) || (old(phase) == Reading && phase == Failed))
      ensures old(phase) != Reading ==>
                && Dead()
                && phase == old(phase)
                && attached == old(attached)
                && outputViolation == (old(outputViolation) || attached)
      ensures old(phase) == Reading ==>
                && outputViolation == old(outputViolation) && (attached <==> phase != Failed)
                && var out := old(bytes) + chunk;
                   phase == if !Fine(out, parse) then Failed
                            else if HasNewline(out) then Connecting(parse(out[..|out| - 1]).value)
                            else Reading
    {
      hide Recounts, Quiet, Lucky, Output, Fine, OneRecord, HasNewline, Spoiled, Unconnected;
      ghost var before := seen;
      Saw(Stdout(chunk));
      Grew(before, Stdout(chunk));
      UnconnectedStays(before, Stdout(chunk));
      if phase != Reading {
        if phase == Failed { SpoiledStays(before, Stdout(chunk), parse); }
        assert seen[..ready] == before[..ready];
        NotSilent(before, chunk, ready, parse);
        if attached { RejectUnexpectedOutput(); }
        Recounting(Stdout(chunk));
        return;
      }
      bytes := bytes + chunk;
      FineMeans(bytes, parse);
      if |bytes| > MAX_READY_BYTES {
        attached := false;
        Fail();
        RecountingReading(Stdout(chunk));
        return;
      }
      if !HasNewline(bytes) {
        RecountingReading(Stdout(chunk));
        return;
      }
      var newline := FirstNewline(bytes);
      if newline != |bytes| - 1 || parse(bytes[..newline]).None? {
        attached := false;
        Fail();
        RecountingReading(Stdout(chunk));
        return;
      }
      NoNewlineYet(before);
      phase := Connecting(parse(bytes[..newline]).value);
      ready := |seen|;
      assert seen[..ready] == seen;
      RecountingReading(Stdout(chunk));
    }

    /** A byte on standard error or a broken pipe. */
    method OnTrouble(e: Event)
      requires Valid() && Recounts() && (e.Stderr? || e.StdoutError? || e.StderrError?)
      modifies this
      ensures Valid() && Recounts() && seen == old(seen) + [e] && Dead() && exit == old(exit)
      ensures old(phase) == Reading ==> phase == Failed && !attached && outputViolation == old(outputViolation)
      ensures old(phase) != Reading ==>
                && phase == old(phase)
                && attached == old(attached)
                && outputViolation == (old(outputViolation) || attached)
    {
      hide Recounts, Quiet, Lucky, Output, Fine, OneRecord, HasNewline, Unconnected;
      ghost var before := seen;
      Saw(e);
      Grew(before, e);
      UnconnectedStays(before, e);
      assert seen[..ready] == before[..ready];
      if phase == Reading {
        attached := false;
        Fail();
        RecountingReading(e);
      } else {
        if attached { RejectUnexpectedOutput(); }
        Recounting(e);
      }
    }

    method OnTimer()
      requires Valid() && Recounts()
      modifies this
      ensures Valid() && Recounts() && seen == old(seen) + [TimerFired] && (old(Dead()) ==> Dead()) && exit == old(exit)
      ensures && outputViolation == old(outputViolation)
              && if old(phase) == Reading then phase == Failed && !attached
                 else phase == old(phase) && attached == old(attached)
    {
      hide Recounts, Quiet, Lucky, Output, Fine, OneRecord, HasNewline, Unconnected;
      ghost var before := seen;
      Saw(TimerFired);
      Grew(before, TimerFired);
      Nil(Output(before));
      UnconnectedStays(before, TimerFired);
      assert seen[..ready] == before[..ready];
      if phase == Reading {
        attached := false;
        Fail();
        RecountingReading(TimerFired);
      } else {
        Recounting(TimerFired);
      }
    }

    /** The runtime is gone. The exit counts as expected only after a close and without a violation so far. */
    method OnExit(code: Option<int>, signaled: bool)
      requires Valid() && Recounts()
      modifies this
      ensures Valid() && Recounts() && seen == old(seen) + [Exit(code, signaled)] && Dead()
      ensures && outputViolation == old(outputViolation)
              && if old(phase) == Reading then phase == Failed && !attached
                 else phase == old(phase) && attached == old(attached)
      ensures exit == if old(exit).Some? then old(exit)
                      else Some(ExitResult(old(closeRequested) && code == Some(0) && !signaled &&
                                           !old(outputViolation), code, signaled))
    {
      hide Recounts, Quiet, Lucky, Output, Fine, OneRecord, HasNewline, Unconnected;
      Recounted();
      ghost var before, e := seen, Exit(code, signaled);
      Saw(e);
      Grew(before, e);
      UnconnectedStays(before, e);
      assert seen[..ready] == before[..ready];
      active := false;
      if exit.None? {
        last := Some(|before|);
        exit := Some(ExitResult(closeRequested && code == Some(0) && !signaled && !outputViolation, code, signaled));
      }
      if phase == Reading {
        attached := false;
        Fail();
      }
      RecountingExit(e);
    }

    /** The loopback connection decides whether the handle is handed out. */
    method OnListener(up: bool)
      requires Valid() && Recounts()
      modifies this
      ensures && Valid()
              && Recounts()
              && seen == old(seen) + [if up then ListenerUp else ListenerDown]
              && (old(Dead()) ==> Dead())
              && exit == old(exit)
      ensures outputViolation == old(outputViolation) && attached == old(attached)
      ensures phase == if !old(phase).Connecting? then old(phase)
                       else if up && !outputViolation && exit.None? then Serving(old(phase).readyPort) else Failed
    {
      hide Recounts, Quiet, Lucky, Output, Fine, OneRecord, HasNewline, Unconnected, Spoiled;
      ghost var before, e := seen, if up then ListenerUp else ListenerDown;
      Saw(e);
      Grew(before, e);
      Nil(Output(before));
      UnconnectedStays(before, e);
      assert seen[..ready] == before[..ready];
      match phase {
        case Connecting(port) =>
          decided := |before|;
          if !up {
            BadLuck(seen, parse);
            Fail();
          } else if outputViolation || exit.Some? {
            MoreThanRecord(before, ready, parse, port);
            SpoiledStays(before, e, parse);
            Fail();
          } else {
            active := true;
            phase := Serving(port);
          }
        case Failed => SpoiledStays(before, e, parse);
        case _ =>
          if phase == Reading { NoNewlineYet(seen); }
      }
      if old(phase).Connecting? { RecountingDecision(e); }
      else if phase == Reading {
        FineMeans(bytes, parse);
        RecountingReading(e);
      }
      else { Recounting(e); }
    }

    /** Closing the handle: only there once the handle was handed out. */
    method OnClose()
      requires Valid() && Recounts()
      modifies this
      ensures && Valid()
              && Recounts()
              && seen == old(seen) + [CloseCalled]
              && (old(Dead()) ==> Dead())
              && active == old(active)
              && exit == old(exit)
      ensures && phase == old(phase)
              && outputViolation == old(outputViolation)
              && closeRequested == (old(closeRequested) || phase.Serving?)
    {
      hide Recounts, Quiet, Lucky, Output, Fine, OneRecord, HasNewline, Unconnected, Spoiled;
      ghost var before := seen;
      Saw(CloseCalled);
      Grew(before, CloseCalled);
      Nil(Output(before));
      UnconnectedStays(before, CloseCalled);
      assert seen[..ready] == before[..ready];
      if phase == Failed { SpoiledStays(before, CloseCalled, parse); }
      if phase.Serving? { closeRequested := true; }
      if phase == Reading {
        FineMeans(bytes, parse);
        RecountingReading(CloseCalled);
      } else {
        Recounting(CloseCalled);
      }
    }

    method Deliver(e: Event)
      requires Valid() && Recounts() && (e.Stdout? ==> e.chunk != [])
      modifies this
      ensures Valid() && Recounts() && seen == old(seen) + [e]
      ensures old(exit).Some? ==> exit == old(exit)
      ensures old(Dead()) || Loud(e) || (e.Stdout? && old(phase) != Reading) ==> Dead()
    {
      hide Recounts, Quiet, Lucky, Output, Fine, OneRecord, HasNewline, Unconnected, Spoiled;
      LoudMeans(e);
      match e {
        case Stdout(chunk) => OnStdout(chunk);
        case Stderr => OnTrouble(e);
        case StdoutError => OnTrouble(e);
        case StderrError => OnTrouble(e);
        case TimerFired => OnTimer();
        case ListenerUp => OnListener(true);
        case ListenerDown => OnListener(false);
        case Exit(code, signaled) => OnExit(code, signaled);
        case CloseCalled => OnClose();
      }
    }
  }

  lemma LoudMeans(e: Event)
    ensures Loud(e) <==> e.Stderr? || e.StdoutError? || e.StderrError? || e.Exit?
  {
  }

  lemma BadLuck(es: seq<Event>, parse: seq<Byte> -> Option<nat>)
    requires !Lucky(es) || !Quiet(es)
    ensures Spoiled(es, parse)
  {
  }

  /** Whatever came after the record spoils the start. */
  lemma MoreThanRecord(es: seq<Event>, ready: nat, parse: seq<Byte> -> Option<nat>, port: nat)
    requires ready <= |es| && OneRecord(Output(es[..ready]), parse, port)
    requires !(Quiet(es) && Output(es) == Output(es[..ready]))
    ensures Spoiled(es, parse)
  {
    hide Output, Quiet;
    OutputPrefix(es, ready);
    var a := Output(es[..ready]);
    var b := Output(es)[|a|..];
    assert Output(es) == a + b;
    if Fine(a + b, parse) { FineBefore(a, b, parse); }
  }

  lemma FineMeans(out: seq<Byte>, parse: seq<Byte> -> Option<nat>)
    ensures Fine(out, parse) <==>
            && |out| <= MAX_READY_BYTES
            && (HasNewline(out) ==> FirstNewline(out) == |out| - 1 && parse(out[..|out| - 1]).Some?)
    ensures forall port: nat ::
              OneRecord(out, parse, port) <==>
              HasNewline(out) && Fine(out, parse) && parse(out[..|out| - 1]) == Some(port)
    ensures !Fine(out, parse) ==> forall es | Output(es) == out :: Spoiled(es, parse)
  {
  }

  lemma NotSilent(before: seq<Event>, chunk: seq<Byte>, ready: nat, parse: seq<Byte> -> Option<nat>)
    requires chunk != [] && ready <= |before|
    ensures |Output(before[..ready])| <= |Output(before)| < |Output(before + [Stdout(chunk)])|
  {
    OutputSnoc(before, Stdout(chunk));
    OutputPrefix(before, ready);
  }

  /** One completed, connected and undisturbed start. */
  ghost predicate Healthy(es: seq<Event>, parse: seq<Byte> -> Option<nat>) {
    && Quiet(es) && Lucky(es) && Fine(Output(es), parse)
    && exists i :: 0 <= i < |es| && es[i] == ListenerUp && HasNewline(Output(es[..i]))
  }

  ghost predicate ServesOnly(es: seq<Event>, parse: seq<Byte> -> Option<nat>) {
    Quiet(es) && exists port: nat :: OneRecord(Output(es), parse, port)
  }

  /**
    Any interleaving of chunks, errors, timers, exits and closes: an active handle means exactly one valid record on
    standard output and nothing else so far, and a start that nothing disturbed is active.
   */
  method Supervise(parse: seq<Byte> -> Option<nat>, es: seq<Event>) returns (s: RuntimeSupervisor)
    requires forall i | 0 <= i < |es| && es[i].Stdout? :: es[i].chunk != []
    ensures fresh(s) && s.Valid() && s.seen == es
    ensures s.active ==> ServesOnly(es, parse)
    ensures Healthy(es, parse) ==> s.active
    // the handle's fields and its exit, from the events alone
    ensures (s.closeRequested <==> CloseRequested(es, parse)) && (s.outputViolation <==> Noisy(es, parse))
    ensures s.exit.Some? <==> ExitIn(es)
    ensures forall x: nat :: FirstExit(es, x) ==> s.exit == Some(ExitOf(es, parse, x))
  {
    hide Quiet, Lucky, Output, Fine, OneRecord, HasNewline, Unconnected, RuntimeSupervisor.Recounts, ExitIn, FirstExit,
      ExitOf, CloseRequested, Noisy;
    s := new RuntimeSupervisor(parse);
    for i := 0 to |es|
      invariant fresh(s) && s.Valid() && s.Recounts() && s.parse == parse && s.seen == es[..i]
    {
      s.Deliver(es[i]);
      assert es[..i + 1] == es[..i] + [es[i]];
    }
    assert es[..|es|] == es;
    s.Recounted();
    s.RecountedExit();
    StillUnconnected(es, parse);
    if s.active { assert OneRecord(Output(es), parse, s.phase.port); }
    if Healthy(es, parse) && s.phase.Serving? {
      RecordIsAll(es, s.ready, parse, s.phase.port);
    }
  }

  lemma StillUnconnected(es: seq<Event>, parse: seq<Byte> -> Option<nat>)
    ensures Healthy(es, parse) ==> !Unconnected(es) && !Spoiled(es, parse) && HasNewline(Output(es))
  {
    hide Fine, Output, Quiet, Lucky;
    if Healthy(es, parse) {
      var i :| 0 <= i < |es| && es[i] == ListenerUp && HasNewline(Output(es[..i]));
      OutputPrefix(es, i);
      var a, b := Output(es[..i]), Output(es);
      var k :| 0 <= k < |a| && a[k] == NEWLINE;
      assert b[k] == NEWLINE;
    }
  }

  lemma RecordIsAll(es: seq<Event>, ready: nat, parse: seq<Byte> -> Option<nat>, port: nat)
    requires ready <= |es| && OneRecord(Output(es[..ready]), parse, port) && Fine(Output(es), parse)
    ensures Output(es) == Output(es[..ready])
  {
    hide Output;
    OutputPrefix(es, ready);
    var a := Output(es[..ready]);
    var b := Output(es)[|a|..];
    assert Output(es) == a + b;
    FineBefore(a, b, parse);
    Nil(a);
  }

  /** Inactive once, inactive for good: noise after the record, or an exit, is never forgotten. */
  method StaysInactive(s: RuntimeSupervisor, noise: Event, es: seq<Event>)
    requires s.Valid() && s.Recounts() && s.phase != Reading && (Loud(noise) || noise.Stdout?)
    requires (noise.Stdout? ==> noise.chunk != []) && forall i | 0 <= i < |es| && es[i].Stdout? :: es[i].chunk != []
    modifies s
    ensures s.Valid() && s.Recounts() && !s.active
  {
    hide Quiet, Lucky, Output, Fine, OneRecord, HasNewline, Unconnected, Spoiled, RuntimeSupervisor.Recounts;
    s.Deliver(noise);
    for i := 0 to |es|
      invariant s.Valid() && s.Recounts() && s.Dead()
    {
      s.Deliver(es[i]);
    }
  }

  /** Noise during the start makes the start fail, but a following clean exit is still reported as expected. */
  method ExpectedDespiteNoise(parse: seq<Byte> -> Option<nat>) returns (s: RuntimeSupervisor)
    ensures fresh(s) && s.Valid() && s.seen == [Stderr, Exit(Some(0), false)]
    ensures s.phase == Failed && s.exit == Some(ExitResult(true, Some(0), false))
  {
    hide Quiet, Lucky, Output, Fine, OneRecord, HasNewline, Unconnected, Spoiled, RuntimeSupervisor.Recounts;
    s := new RuntimeSupervisor(parse);
    s.OnTrouble(Stderr);
    s.OnExit(Some(0), false);
  }
}
