/** Looking for a Mach endpoint in `launchctl print system`, one byte at a time. */
module MachPresence {
  import opened Basics
  import opened LineText
  import opened Sequences

  const LINE_CAPACITY: nat := 8192
  const SNAPSHOT_LIMIT: nat := 8 * 1024 * 1024

  /** The line that registers an endpoint. */
  function Endpoint(name: string): string { "\"" + name + "\" = {" }

  ghost predicate HasEndpoint(lines: seq<string>, name: string) {
    exists i | 0 <= i < |lines| :: Trim(lines[i]) == Endpoint(name)
  }

  /** A whole snapshot that the probe may trust. */
  ghost predicate Acceptable(s: string) {
    && 0 < |s| <= SNAPSHOT_LIMIT && s[|s| - 1] == '\n'
    && (forall i | 0 <= i < |s| :: SafeByte(s[i]))
    && (forall i | 0 <= i < |Lines(s)| :: |Lines(s)[i]| <= LINE_CAPACITY)
  }

  /** What a cleanly ended probe should answer, from the snapshot as a whole. */
  ghost function Verdict(s: string, name: string): Probe {
    if !Acceptable(s) then ProbeError else if HasEndpoint(Lines(s), name) then Present else Absent
  }

  /**
    What the verdict means: among lines of tabs and printable characters, none too long, the endpoint is present
    exactly when one of them is the quoted name and the opening brace with any spaces and tabs around it.
   */
  lemma VerdictIs(lines: seq<string>, name: string)
    requires lines != [] && |Joined(lines)| <= SNAPSHOT_LIMIT
    requires forall k | 0 <= k < |lines| :: |lines[k]| <= 8192
    requires forall k, i | 0 <= k < |lines| && 0 <= i < |lines[k]| ::
               lines[k][i] == '\t' || 0x20 <= lines[k][i] as int <= 0x7e
    ensures Verdict(Joined(lines), name) ==
            if exists k | 0 <= k < |lines| :: Padded(lines[k], "\"" + name + "\" = {") then Present else Absent
  {
    hide Trim, Joined, Padded;
    forall k | 0 <= k < |lines| ensures SafeLine(lines[k]) {
      forall i | 0 <= i < |lines[k]| ensures SafeByte(lines[k][i]) && lines[k][i] != '\n' {}
    }
    JoinedSafe(lines);
    ScannedVerdict(lines, name);
    var e := Endpoint(name);
    assert e[0] == '"' && e[|e| - 1] == '{';
    forall k | 0 <= k < |lines| ensures Trim(lines[k]) == e <==> Padded(lines[k], e) { TrimExactly(lines[k], e); }
  }

  class NameScanner {
    const needle: string
    const line: array<char>
    var length: nat
    var found: bool
    ghost var text: string          // every byte accepted so far
    ghost var done: seq<string>     // the lines completed so far

    constructor (needle: string)
      ensures Valid() && this.needle == needle && text == "" && fresh(line)
    {
      this.needle := needle;
      line := new char[LINE_CAPACITY];
      length, found, text, done := 0, false, "", [];
      new;
      assert line[..length] == "";
    }

    ghost predicate Valid() reads this, line {
      && line.Length == LINE_CAPACITY && length <= LINE_CAPACITY
      && text == Joined(done) + line[..length]
      && NoNewline(line[..length])
      && (forall k | 0 <= k < |done| :: NoNewline(done[k]) && |done[k]| <= LINE_CAPACITY)
      && (forall i | 0 <= i < |text| :: SafeByte(text[i]))
      && (found <==> HasEndpoint(done, needle))
    }

    /** Whether the buffered line, trimmed, registers the endpoint. */
    method Names() returns (yes: bool)
      requires line.Length == LINE_CAPACITY && length <= LINE_CAPACITY
      ensures yes <==> Trim(line[..length]) == Endpoint(needle)
    {
      hide Trim, Endpoint;
      ghost var l := line[..length];
      var left := 0;
      while left < length && Blank(line[left])
        invariant left <= length && forall i | 0 <= i < left :: Blank(l[i])
      {
        left := left + 1;
      }
      var right := length;
      while right > left && Blank(line[right - 1])
        invariant left <= right <= length && forall i | right <= i < length :: Blank(l[i])
      {
        right := right - 1;
      }
      TrimIs(l, left, right);
      EndpointParts(l[left..right], needle);
      yes := right - left == |needle| + 6;
      if yes {
        Within(l, left, right, 1, 1 + |needle|);
        Within(l, left, right, 1 + |needle|, right - left);
        Within(line[..], 0, length, left + 1, left + 1 + |needle|);
        Within(line[..], 0, length, left + 1 + |needle|, right);
        assert l == line[..][0..length];
        yes := line[left] == '"' && line[left + 1..left + 1 + |needle|] == needle &&
               line[left + 1 + |needle|..left + 6 + |needle|] == "\" = {";
      }
    }

    /** A newline: judge the buffered line and start the next. */
    method FinishLine()
      requires Valid()
      modifies this`length, this`found, this`text, this`done
      ensures Valid() && length == 0 && text == old(text) + "\n"
      ensures done == old(done) + [old(line[..length])]
    {
      ghost var l := line[..length];
      JoinedSnoc(done, l);
      assert forall k | 0 <= k < |done| :: (done + [l])[k] == done[k];
      if !found {
        found := Names();
      }
      HasSnoc(done, l, needle);
      text := text + "\n";
      done := done + [l];
      length := 0;
    }

    method ScanByte(b: char) returns (ok: bool)
      requires Valid()
      modifies this`length, this`found, this`text, this`done, line
      ensures Valid()
      ensures ok <==> SafeByte(b) && (b == '\n' || old(length) < LINE_CAPACITY)
      ensures text == if ok then old(text) + [b] else old(text)
      ensures !ok ==> length == old(length) && done == old(done)
    {
      if !SafeByte(b) { return false; }
      if b == '\n' {
        FinishLine();
        return true;
      }
      if length >= LINE_CAPACITY { return false; }
      ghost var l := line[..length];
      line[length] := b;
      length := length + 1;
      text := text + [b];
      assert line[..length] == l + [b];
      assert Joined(done) + (l + [b]) == Joined(done) + l + [b];
      ok := true;
    }
  }

  lemma HasSnoc(lines: seq<string>, l: string, name: string)
    ensures HasEndpoint(lines + [l], name) <==> HasEndpoint(lines, name) || Trim(l) == Endpoint(name)
  {
    var all := lines + [l];
    assert forall i | 0 <= i < |lines| :: all[i] == lines[i];
    assert all[|lines|] == l;
  }

  /** The pieces the scanner compares, against the endpoint line as a whole. */
  lemma EndpointParts(s: string, name: string)
    ensures s == Endpoint(name) <==>
            |s| == |name| + 6 && s[0] == '"' && s[1..1 + |name|] == name && s[1 + |name|..] == "\" = {"
  {
    if |s| == |name| + 6 && s[0] == '"' && s[1..1 + |name|] == name && s[1 + |name|..] == "\" = {" {
      assert s == [s[0]] + s[1..1 + |name|] + s[1 + |name|..];
    }
  }

  // ---- one probe, from spawn to answer ----

  /** What one turn of the poll loop brings. */
  datatype Event =
    | Output(bytes: string)     // one read of standard output
    | Complaint(size: nat)      // one read of standard error
    | Idle                      // interrupted, or nothing to read yet
    | Broken                    // a failing call, or the deadline

  function Piece(e: Event): string { if e.Output? then e.bytes else "" }

  function Snapshot(events: seq<Event>): string {
    if events == [] then "" else Piece(events[0]) + Snapshot(events[1..])
  }

  ghost predicate Undisturbed(events: seq<Event>) {
    forall k | 0 <= k < |events| :: !events[k].Broken? && (events[k].Complaint? ==> events[k].size == 0)
  }

  lemma {:induction false} SnapshotAppend(a: seq<Event>, b: seq<Event>)
    ensures Snapshot(a + b) == Snapshot(a) + Snapshot(b)
  {
    if a == [] {
      Nil(b);
      Nil(Snapshot(b));
    } else {
      Tail(a, b);
      SnapshotAppend(a[1..], b);
      Assoc(Piece(a[0]), Snapshot(a[1..]), Snapshot(b));
    }
  }

  lemma SnapshotSplit(events: seq<Event>, k: nat)
    requires k < |events|
    ensures Snapshot(events[..k + 1]) == Snapshot(events[..k]) + Piece(events[k])
    ensures Snapshot(events) == Snapshot(events[..k + 1]) + Snapshot(events[k + 1..])
  {
    hide Snapshot;
    SnapshotAppend(events[..k], [events[k]]);
    Snoc(events, k);
    SnapshotOne(events[k]);
    SnapshotAppend(events[..k + 1], events[k + 1..]);
    Parts(events, k + 1);
  }

  lemma SnapshotOne(e: Event)
    ensures Snapshot([e]) == Piece(e)
  {
    assert [e][1..] == [];
    Nil(Piece(e));
  }

  /** A snapshot whose accepted part is already unusable stays unusable whatever follows. */
  lemma IllegalByteSpoils(before: string, b: char, rest: string)
    requires !SafeByte(b)
    ensures !Acceptable(before + [b] + rest)
  {
    assert (before + [b] + rest)[|before|] == b;
  }

  lemma LongLineSpoils(done: seq<string>, line: string, b: char, rest: string)
    requires forall k | 0 <= k < |done| :: NoNewline(done[k])
    requires NoNewline(line) && |line| >= LINE_CAPACITY && b != '\n'
    ensures !Acceptable(Joined(done) + line + [b] + rest)
  {
    hide Joined;
    var s := Joined(done) + line + [b] + rest;
    var tail := line + [b] + rest;
    assert s == Joined(done) + tail;
    LinesAfterJoined(done, tail);
    FirstLineKeeps(line, b, rest);
    assert Lines(s)[|done|] == Lines(tail)[0];
  }

  /** Complete lines are exactly the lines of the text they were cut from. */
  lemma ScannedVerdict(done: seq<string>, name: string)
    requires forall k | 0 <= k < |done| :: NoNewline(done[k]) && |done[k]| <= LINE_CAPACITY
    requires var s := Joined(done);
             0 < |s| <= SNAPSHOT_LIMIT && s[|s| - 1] == '\n' && forall i | 0 <= i < |s| :: SafeByte(s[i])
    ensures Verdict(Joined(done), name) == if HasEndpoint(done, name) then Present else Absent
  {
    hide Joined;
    LinesOfJoined(done);
  }

  /** One chunk, byte by byte; false as soon as a byte is refused. */
  method ScanChunk(scanner: NameScanner, bytes: string) returns (ok: bool)
    requires scanner.Valid()
    modifies scanner`length, scanner`found, scanner`text, scanner`done, scanner.line
    ensures scanner.Valid()
    ensures ok ==> scanner.text == old(scanner.text) + bytes
    ensures !ok ==> forall rest: string :: !Acceptable(old(scanner.text) + bytes + rest)
  {
    hide Acceptable, LINE_CAPACITY;
    ghost var before := scanner.text;
    var index := 0;
    Nil(before);
    while index < |bytes|
      invariant index <= |bytes| && scanner.Valid() && scanner.text == before + bytes[..index]
    {
      ghost var text, done, line := scanner.text, scanner.done, scanner.line[..scanner.length];
      ok := scanner.ScanByte(bytes[index]);
      if !ok {
        forall rest: string ensures !Acceptable(before + bytes + rest) {
          RefusedSpoils(before, bytes, index, rest, text, done, line);
        }
        return;
      }
      Assoc(before, bytes[..index], [bytes[index]]);
      Snoc(bytes, index);
      index := index + 1;
    }
    assert bytes[..index] == bytes;
    ok := true;
  }

  /** Why a refused byte settles the verdict, whatever follows it. */
  lemma RefusedSpoils(before: string, bytes: string, index: nat, rest: string, text: string, done: seq<string>,
                      line: string)
    requires index < |bytes| && text == before + bytes[..index] == Joined(done) + line
    requires NoNewline(line) && forall k | 0 <= k < |done| :: NoNewline(done[k])
    requires !SafeByte(bytes[index]) || (bytes[index] != '\n' && |line| >= LINE_CAPACITY)
    ensures !Acceptable(before + bytes + rest)
  {
    hide Acceptable, Joined;
    var b, after := bytes[index], bytes[index + 1..];
    Around(bytes, index);
    assert before + bytes + rest == text + [b] + (after + rest);
    if !SafeByte(b) { IllegalByteSpoils(text, b, after + rest); } else { LongLineSpoils(done, line, b, after + rest); }
  }

  /**
    A whole probe: for every snapshot, every way it is cut into reads and every mix of reads on the two pipes,
    the answer is the one the snapshot as a whole deserves, or an error.
    */
  method CollectPresence(name: string, events: seq<Event>, cleanExit: bool) returns (result: Probe)
    requires forall k | 0 <= k < |events| && events[k].Output? :: 0 < |events[k].bytes|
    ensures result == if cleanExit && Undisturbed(events) then Verdict(Snapshot(events), name) else ProbeError
  {
    hide Acceptable, HasEndpoint, LINE_CAPACITY, SNAPSHOT_LIMIT, Snapshot, Undisturbed, Joined, Lines;
    var scanner := new NameScanner(name);
    var total, complaints, endedNewline, k := 0, 0, false, 0;
    assert events[..0] == [];
    NothingYet();
    while k < |events|
      invariant k <= |events| && scanner.Valid() && fresh(scanner) && fresh(scanner.line) && scanner.needle == name
      invariant scanner.text == Snapshot(events[..k]) && total == |scanner.text| <= SNAPSHOT_LIMIT
      invariant endedNewline <==> total > 0 && scanner.text[total - 1] == '\n'
      invariant complaints == 0 <==> Undisturbed(events[..k])
    {
      SnapshotSplit(events, k);
      UndisturbedStep(events, k);
      match events[k] {
        case Output(bytes) =>
          if |bytes| > SNAPSHOT_LIMIT - total {
            TooLong(Snapshot(events));
            return ProbeError;
          }
          total := total + |bytes|;
          var ok := ScanChunk(scanner, bytes);
          if !ok { return ProbeError; }
          endedNewline := bytes[|bytes| - 1] == '\n';
        case Complaint(size) =>
          if size > 4096 - complaints { return ProbeError; }
          complaints := complaints + size;
        case Idle =>
        case Broken =>
          return ProbeError;
      }
      k := k + 1;
    }
    assert events[..k] == events;
    if !cleanExit || total == 0 || complaints != 0 || !endedNewline {
      BadEnding(scanner.text);
      return ProbeError;
    }
    Ended(scanner.done, scanner.line[..scanner.length]);
    ScannedVerdict(scanner.done, name);
    result := if scanner.length == 0 && scanner.found then Present else Absent;
  }

  /** Reads that deliver something; an empty one is the end of the stream and no event. */
  function Reads(events: seq<Event>): (r: seq<Event>)
    ensures forall k | 0 <= k < |r| && r[k].Output? :: 0 < |r[k].bytes|
  {
    if events == [] then [] else (if events[0] == Output("") then [] else [events[0]]) + Reads(events[1..])
  }

  lemma NothingYet()
    ensures Snapshot([]) == "" && Undisturbed([]) && Joined([]) == ""
  {
  }

  lemma TooLong(s: string)
    ensures |s| > SNAPSHOT_LIMIT ==> !Acceptable(s)
  {
  }

  lemma BadEnding(s: string)
    ensures s == "" || s[|s| - 1] != '\n' ==> !Acceptable(s)
  {
  }

  lemma UndisturbedStep(events: seq<Event>, k: nat)
    requires k < |events|
    ensures Undisturbed(events[..k + 1]) <==>
            Undisturbed(events[..k]) && !events[k].Broken? && (events[k].Complaint? ==> events[k].size == 0)
    ensures Undisturbed(events) ==> Undisturbed(events[..k + 1])
  {
  }

  /** Text that ends in a newline has no unfinished line. */
  lemma Ended(done: seq<string>, line: string)
    requires NoNewline(line)
    requires var s := Joined(done) + line; s != "" && s[|s| - 1] == '\n'
    ensures line == "" && Joined(done) + line == Joined(done)
  {
  }
}
