/** Reading `launchctl print`: the three index loops over its lines and the verdict built on them. */
module LaunchctlText {
  import opened Basics
  import opened Decimals
  import opened LineText
  import opened Sequences
  import opened Commands
  import opened Records

  /** A test of one line, after trimming. */
  datatype Test = Exactly(text: string) | Keyed(key: string)

  predicate Passes(t: Test, line: string) {
    match t
    case Exactly(text) => Trim(line) == text
    case Keyed(key) => key <= Trim(line)
  }

  function Count(lines: seq<string>, t: Test): nat {
    if lines == [] then 0 else (if Passes(t, lines[0]) then 1 else 0) + Count(lines[1..], t)
  }

  /** Line `i`, and no other, passes. */
  ghost predicate OnlyLine(lines: seq<string>, t: Test, i: nat) {
    i < |lines| && Passes(t, lines[i]) && forall j | 0 <= j < |lines| :: j != i ==> !Passes(t, lines[j])
  }

  lemma {:induction false} CountZero(lines: seq<string>, t: Test)
    ensures Count(lines, t) == 0 <==> forall j | 0 <= j < |lines| :: !Passes(t, lines[j])
  {
    if lines != [] {
      CountZero(lines[1..], t);
      assert forall j | 1 <= j < |lines| :: lines[j] == lines[1..][j - 1];
    }
  }

  lemma {:induction false} CountOneHas(lines: seq<string>, t: Test) returns (i: nat)
    requires Count(lines, t) == 1
    ensures OnlyLine(lines, t, i)
  {
    hide Passes;
    var tail := lines[1..];
    assert forall j | 1 <= j < |lines| :: lines[j] == tail[j - 1];
    if Passes(t, lines[0]) {
      CountZero(tail, t);
      i := 0;
    } else {
      i := CountOneHas(tail, t);
      i := i + 1;
    }
  }

  lemma {:induction false} OnlyLineCounts(lines: seq<string>, t: Test, i: nat)
    requires OnlyLine(lines, t, i)
    ensures Count(lines, t) == 1
  {
    hide Passes;
    var tail := lines[1..];
    assert forall j | 1 <= j < |lines| :: lines[j] == tail[j - 1];
    if i == 0 { CountZero(tail, t); } else { OnlyLineCounts(tail, t, i - 1); }
  }

  /** What is left to scan from `start`. */
  function LinesFrom(bytes: string, start: nat): seq<string> {
    Lines(if start <= |bytes| then bytes[start..] else "")
  }

  lemma CountStep(bytes: string, start: nat, end: nat, t: Test)
    requires start < |bytes| && end == start + LineEnd(bytes[start..])
    ensures end <= |bytes|
    ensures Count(LinesFrom(bytes, start), t) == (if Passes(t, bytes[start..end]) then 1 else 0) +
                                                 Count(LinesFrom(bytes, end + 1), t)
  {
    hide Passes;
    LinesStep(bytes, start, end);
    var ls := LinesFrom(bytes, start);
    assert ls == [bytes[start..end]] + LinesFrom(bytes, end + 1);
    assert ls[0] == bytes[start..end] && ls[1..] == LinesFrom(bytes, end + 1);
  }

  lemma FromStart(bytes: string)
    ensures LinesFrom(bytes, 0) == Lines(bytes)
  {
    assert bytes[0..] == bytes;
  }

  lemma NothingLeft(bytes: string, start: nat, t: Test)
    requires start >= |bytes|
    ensures LinesFrom(bytes, start) == [] && Count(LinesFrom(bytes, start), t) == 0
  {
  }

  method ExactTrimmedLineCount(bytes: string, expected: string) returns (matches: nat)
    ensures matches == Count(Lines(bytes), Exactly(expected))
  {
    hide Lines, Count, LinesFrom, LineEnd, Trim;
    ghost var t := Exactly(expected);
    matches := 0;
    var start := 0;
    FromStart(bytes);
    while start < |bytes|
      invariant matches + Count(LinesFrom(bytes, start), t) == Count(Lines(bytes), t)
      decreases |bytes| - start
    {
      var end, left, right := ScanLine(bytes, start);
      CountStep(bytes, start, end, t);
      if bytes[left..right] == expected { matches := matches + 1; }
      start := end + 1;
    }
    NothingLeft(bytes, start, t);
  }

  lemma PrefixSlice(bytes: string, left: nat, right: nat, key: string)
    requires left <= right <= |bytes|
    ensures key <= bytes[left..right] <==> right - left >= |key| && bytes[left..left + |key|] == key
  {
    if right - left >= |key| { assert bytes[left..right][..|key|] == bytes[left..left + |key|]; }
  }

  method UniqueKeyLine(bytes: string, key: string, expected: string) returns (ok: bool)
    ensures ok <==>
            key <= expected && Count(Lines(bytes), Keyed(key)) == 1 && Count(Lines(bytes), Exactly(expected)) == 1
  {
    hide Lines, Count, LinesFrom, LineEnd, Trim;
    ghost var k, x := Keyed(key), Exactly(expected);
    var keyCount, expectedCount := 0, 0;
    var start := 0;
    FromStart(bytes);
    while start < |bytes|
      invariant keyCount + Count(LinesFrom(bytes, start), k) == Count(Lines(bytes), k)
      invariant if key <= expected then expectedCount + Count(LinesFrom(bytes, start), x) == Count(Lines(bytes), x)
                else expectedCount == 0
      decreases |bytes| - start
    {
      var end, left, right := ScanLine(bytes, start);
      CountStep(bytes, start, end, k);
      CountStep(bytes, start, end, x);
      PrefixSlice(bytes, left, right, key);
      if right - left >= |key| && bytes[left..left + |key|] == key {
        keyCount := keyCount + 1;
        if bytes[left..right] == expected { expectedCount := expectedCount + 1; }
      }
      start := end + 1;
    }
    NothingLeft(bytes, start, k);
    NothingLeft(bytes, start, x);
    ok := keyCount == 1 && expectedCount == 1;
  }

  /** The two counts of `UniqueKeyLine` say: one line carries the key, and it is the expected one. */
  lemma UniqueKeyMeans(lines: seq<string>, key: string, expected: string)
    requires key <= expected
    ensures Count(lines, Keyed(key)) == 1 && Count(lines, Exactly(expected)) == 1 <==>
            exists i: nat :: OnlyLine(lines, Keyed(key), i) && Trim(lines[i]) == expected
  {
    if Count(lines, Keyed(key)) == 1 && Count(lines, Exactly(expected)) == 1 {
      var i := CountOneHas(lines, Keyed(key));
      var j := CountOneHas(lines, Exactly(expected));
      assert Passes(Keyed(key), lines[j]);
      assert i == j;
    }
    if i: nat :| OnlyLine(lines, Keyed(key), i) && Trim(lines[i]) == expected {
      assert OnlyLine(lines, Exactly(expected), i) by {
        forall j | 0 <= j < |lines| && j != i ensures !Passes(Exactly(expected), lines[j]) {
          assert !Passes(Keyed(key), lines[j]);
        }
      }
      OnlyLineCounts(lines, Keyed(key), i);
      OnlyLineCounts(lines, Exactly(expected), i);
    }
  }

  // ---- the process id ----

  const PID_KEY := "pid = "

  /** The number on a pid line: one to eight characters that strtoul reads to the end. */
  function PidOf(line: string): Option<nat> {
    var t := Trim(line);
    if PID_KEY <= t && 0 < |t| - 6 <= 8 then Strtoul(t[6..]) else None
  }

  predicate PidInRange(p: nat) { 1 < p <= 99999999 }

  /** Exactly one pid line, and its number in range. */
  ghost predicate UniquePid(lines: seq<string>, p: nat) {
    PidInRange(p) && exists i: nat :: OnlyLine(lines, Keyed(PID_KEY), i) && PidOf(lines[i]) == Some(p)
  }

  method UniquePidLine(bytes: string) returns (observed: Option<nat>)
    ensures observed.Some? ==> UniquePid(Lines(bytes), observed.value)
    ensures observed.None? ==> forall p :: !UniquePid(Lines(bytes), p)
  {
    hide Lines, Count, LinesFrom, LineEnd, Trim, Strtoul;
    ghost var k := Keyed(PID_KEY);
    ghost var lines := Lines(bytes);
    ghost var n, at := 0, 0;
    var found, pid := 0, 0;
    var start := 0;
    FromStart(bytes);
    while start < |bytes|
      invariant n <= |lines| && LinesFrom(bytes, start) == lines[n..]
      invariant found == 0 ==> forall j | 0 <= j < n :: !Passes(k, lines[j])
      invariant found == 1 ==>
                  at < n && PidOf(lines[at]) == Some(pid) && forall j | 0 <= j < n :: Passes(k, lines[j]) <==> j == at
      invariant found >= 2 ==> exists i, j :: 0 <= i < j < n && Passes(k, lines[i]) && Passes(k, lines[j])
      decreases |bytes| - start
    {
      var end, left, right := ScanLine(bytes, start);
      LinesFromStep(bytes, start, end);
      ghost var line := bytes[start..end];
      assert lines[n] == lines[n..][0] == line;
      assert lines[n + 1..] == lines[n..][1..];
      PrefixSlice(bytes, left, right, PID_KEY);
      if right - left >= 6 && bytes[left..left + 6] == PID_KEY {
        assert Passes(k, line);
        var digits := right - left - 6;
        assert Trim(line)[6..] == bytes[left + 6..right] by { Within(bytes, left, right, 6, right - left); }
        if digits == 0 || digits > 8 { NoPid(lines, n); return None; }
        var parsed := Strtoul(bytes[left + 6..right]);
        if parsed.None? { NoPid(lines, n); return None; }
        if found == 0 { at := n; }
        found, pid := found + 1, parsed.value;
      }
      n := n + 1;
      start := end + 1;
    }
    NothingLeft(bytes, start, k);
    assert n == |lines|;
    if found == 1 { ThePid(lines, at, pid); } else { NotOnePid(lines); }
    observed := if found != 1 || pid <= 1 || pid > 99999999 then None else Some(pid);
  }

  lemma LinesFromStep(bytes: string, start: nat, end: nat)
    requires start < |bytes| && end == start + LineEnd(bytes[start..])
    ensures end <= |bytes| && LinesFrom(bytes, start) == [bytes[start..end]] + LinesFrom(bytes, end + 1)
  {
    LinesStep(bytes, start, end);
  }

  lemma ThePid(lines: seq<string>, at: nat, pid: nat)
    requires OnlyLine(lines, Keyed(PID_KEY), at) && PidOf(lines[at]) == Some(pid)
    ensures forall p :: UniquePid(lines, p) <==> p == pid && PidInRange(p)
  {
  }

  lemma NotOnePid(lines: seq<string>)
    requires || (forall j | 0 <= j < |lines| :: !Passes(Keyed(PID_KEY), lines[j]))
             || (exists i, j :: 0 <= i < j < |lines| && Passes(Keyed(PID_KEY), lines[i]) &&
                                Passes(Keyed(PID_KEY), lines[j]))
    ensures forall p :: !UniquePid(lines, p)
  {
  }

  lemma NoPid(lines: seq<string>, n: nat)
    requires n < |lines| && Passes(Keyed(PID_KEY), lines[n]) && PidOf(lines[n]).None?
    ensures forall p :: !UniquePid(lines, p)
  {
  }

  /** The number of a pid line is in range only without a minus sign: blanks, one optional plus, then its digits. */
  lemma PidForm(value: string, p: nat)
    requires 0 < |value| <= 8
    ensures (Strtoul(value) == Some(p) && PidInRange(p)) <==>
            var t := SkipSpace(value);
            var d := if t != "" && t[0] == '+' then t[1..] else t;
            d != "" && Digits(d) && Dec(d) == p && PidInRange(p)
  {
    var t := SkipSpace(value);
    if t != "" && t[0] == '-' {
      if Strtoul(value).Some? { ShortNegativeIsHuge(value); }
      assert !Digit(t[0]);
    }
    var d := if t != "" && (t[0] == '+' || t[0] == '-') then t[1..] else t;
    if Digits(d) { DecBound(d, Power10(|d|)); Power10Small(|d|); }
  }

  /** Every pid in range is accepted in its plain decimal form. */
  lemma PlainPidAccepted(p: nat)
    requires PidInRange(p)
    ensures PidOf(PID_KEY + Render(p)) == Some(p)
  {
    var s := Render(p);
    var line := PID_KEY + s;
    RenderShort(p);
    DecRender(p);
    StrtoulDigits(s);
    assert line[|line| - 1] == s[|s| - 1] && Digit(s[|s| - 1]);
    TrimIs(line, 0, |line|);
    assert line[0..|line|] == line && line[6..] == s;
  }

  lemma RenderShort(p: nat)
    requires p <= 99999999
    ensures |Render(p)| <= 8
  {
    RenderLength(p, 8);
  }

  /** The plain form is not the only one: a sign, blanks and leading zeros pass as well. */
  lemma PidNotCanonical()
    ensures PidOf("pid =  +02") == Some(2) && Render(2) == "2"
  {
    var line, value, d := "pid =  +02", " +02", "02";
    TrimIs(line, 0, |line|);
    assert line[0..|line|] == line && line[6..] == value;
    assert value[1..] == ['+'] + d && SkipSpace(value) == SkipSpace(['+'] + d) == ['+'] + d;
    assert (['+'] + d)[1..] == d && d == ['0', '2'];
    assert d[..1] == ['0'] && ['0'][..0] == [];
    assert Dec(['0']) == 0 && Dec(d) == 2;
  }

  /** Among the accepted forms exactly the one without blank, sign and leading zero is canonical. */
  lemma CanonicalPid(value: string, p: nat)
    requires 0 < |value| <= 8 && Strtoul(value) == Some(p) && PidInRange(p)
    ensures value == Render(p) <==> Digit(value[0]) && value[0] != '0'
  {
    RenderHead(p);
    if Digit(value[0]) && value[0] != '0' {
      assert SkipSpace(value) == value;
      RenderDec(value);
    }
  }

  // ---- the verdict ----

  predicate SafeOutput(s: string) {
    s != "" && s[|s| - 1] == '\n' && forall i | 0 <= i < |s| :: SafeByte(s[i])
  }

  function Header(j: JobRecord): string { "system/" + j.jobLabel + " = {" }
  function ProgramLine(j: JobRecord): string { "program = " + j.program }
  function UserLine(j: JobRecord): string { "username = " + j.userName }

  /** The one line with this key is exactly this line. */
  ghost predicate ExactlyKeyed(lines: seq<string>, key: string, line: string) {
    exists i: nat :: OnlyLine(lines, Keyed(key), i) && Trim(lines[i]) == line
  }

  /** A clean print of the expected job: one header, one program, one user. */
  ghost predicate PrintsJob(o: CommandOutput, j: JobRecord) {
    && CleanExit(o, 0) && o.stderr == "" && SafeOutput(o.stdout)
    && |Header(j)| < 192 && |ProgramLine(j)| < 384 && |UserLine(j)| < 128
    && (exists i: nat :: OnlyLine(Lines(o.stdout), Exactly(Header(j)), i))
    && ExactlyKeyed(Lines(o.stdout), "program = ", ProgramLine(j))
    && ExactlyKeyed(Lines(o.stdout), "username = ", UserLine(j))
  }

  /** Besides, its one state line says running and its one pid line says `p`. */
  ghost predicate PrintsRunning(o: CommandOutput, j: JobRecord, p: nat) {
    PrintsJob(o, j) && ExactlyKeyed(Lines(o.stdout), "state = ", "state = running") && UniquePid(Lines(o.stdout), p)
  }

  method KeyLine(bytes: string, key: string, expected: string) returns (ok: bool)
    requires key <= expected
    ensures ok <==> ExactlyKeyed(Lines(bytes), key, expected)
  {
    ok := UniqueKeyLine(bytes, key, expected);
    UniqueKeyMeans(Lines(bytes), key, expected);
  }

  method ParsedLoadedJob(o: CommandOutput, j: JobRecord) returns (ok: bool)
    ensures ok <==> PrintsJob(o, j)
  {
    hide Lines, Passes, Trim;
    if !CleanExit(o, 0) || o.stderr != "" || !SafeOutput(o.stdout) { return false; }
    if |Header(j)| >= 192 || |ProgramLine(j)| >= 384 || |UserLine(j)| >= 128 { return false; }
    var n := ExactTrimmedLineCount(o.stdout, Header(j));
    if n == 1 {
      ghost var i := CountOneHas(Lines(o.stdout), Exactly(Header(j)));
    } else {
      NotOnly(Lines(o.stdout), Exactly(Header(j)));
      return false;
    }
    ok := KeyLine(o.stdout, "program = ", ProgramLine(j));
    if !ok { return; }
    ok := KeyLine(o.stdout, "username = ", UserLine(j));
  }

  lemma NotOnly(lines: seq<string>, t: Test)
    requires Count(lines, t) != 1
    ensures forall i: nat :: !OnlyLine(lines, t, i)
  {
    forall i: nat ensures !OnlyLine(lines, t, i) {
      if OnlyLine(lines, t, i) { OnlyLineCounts(lines, t, i); assert false; }
    }
  }

  method ParsedRunningJob(o: CommandOutput, j: JobRecord) returns (pid: Option<nat>)
    ensures pid.Some? ==> PrintsRunning(o, j, pid.value)
    ensures pid.None? ==> forall p :: !PrintsRunning(o, j, p)
  {
    hide Lines, Passes, Trim, PrintsJob, ExactlyKeyed;
    var ok := ParsedLoadedJob(o, j);
    if !ok { return None; }
    ok := KeyLine(o.stdout, "state = ", "state = running");
    if !ok { return None; }
    pid := UniquePidLine(o.stdout);
  }

  /** A print fixes program and user: it cannot be of two jobs that differ there. */
  lemma PrintsOneJob(o: CommandOutput, a: JobRecord, b: JobRecord)
    requires PrintsJob(o, a) && PrintsJob(o, b) && a.jobLabel == b.jobLabel
    ensures Alike(a, b)
  {
    SameKeyed(Lines(o.stdout), "program = ", ProgramLine(a), ProgramLine(b));
    SameKeyed(Lines(o.stdout), "username = ", UserLine(a), UserLine(b));
    AfterKey("program = ", a.program);
    AfterKey("program = ", b.program);
    AfterKey("username = ", a.userName);
    AfterKey("username = ", b.userName);
  }

  lemma AfterKey(a: string, b: string)
    ensures (a + b)[|a|..] == b
  {
  }

  lemma SameKeyed(lines: seq<string>, key: string, x: string, y: string)
    requires ExactlyKeyed(lines, key, x) && ExactlyKeyed(lines, key, y)
    ensures x == y
  {
  }

  /** It does not see the rest of a record: records that are alike are printed alike. */
  lemma PrintsAlike(o: CommandOutput, a: JobRecord, b: JobRecord)
    requires Alike(a, b) && a.jobLabel == b.jobLabel
    ensures PrintsJob(o, a) <==> PrintsJob(o, b)
  {
  }

  // ---- printing ----

  predicate Tidy(l: string) {
    l != "" && !Blank(l[0]) && !Blank(l[|l| - 1]) && forall i | 0 <= i < |l| :: SafeByte(l[i]) && l[i] != '\n'
  }

  /** A field that a line of print can carry. */
  predicate PlainField(s: string) {
    s != "" && !Blank(s[|s| - 1]) && forall i | 0 <= i < |s| :: SafeByte(s[i]) && s[i] != '\n'
  }

  predicate Printable(j: JobRecord) {
    && PlainField(j.jobLabel) && PlainField(j.program) && PlainField(j.userName)
    && |j.jobLabel| < 181 && |j.program| < 374 && |j.userName| < 117
  }

  lemma TidyConcat(a: string, b: string)
    requires a != "" && Tidy(a + "x") && PlainField(b)
    ensures Tidy(a + b)
  {
    var l, m := a + b, a + "x";
    forall i | 0 <= i < |l| ensures SafeByte(l[i]) && l[i] != '\n' {
      if i < |a| { assert l[i] == m[i]; } else { assert l[i] == b[i - |a|]; }
    }
    assert l[|l| - 1] == b[|b| - 1];
    assert l[0] == m[0];
  }

  function RunningLines(pid: Option<nat>): seq<string> {
    if pid.Some? then ["state = running", "pid = " + Render(pid.value)] else []
  }

  function PrintedLines(j: JobRecord, pid: Option<nat>): seq<string> {
    ["system/" + j.jobLabel + " = {", "program = " + j.program, "username = " + j.userName] + RunningLines(pid)
  }

  /** Any spaces and tabs around each line. */
  ghost predicate Indents(left: nat -> string, right: nat -> string) {
    forall k: nat :: Padding(left(k)) && Padding(right(k))
  }

  /** The lines that matter, of a loaded job and of its process if there is one. */
  function PrintedJob(j: JobRecord, pid: Option<nat>, left: nat -> string, right: nat -> string): CommandOutput {
    CommandOutput(true, 0, false, Joined(Indented(PrintedLines(j, pid), left, right)), "")
  }

  lemma HeaderTidy(j: JobRecord)
    requires Printable(j)
    ensures Tidy(Header(j)) && Tidy(ProgramLine(j)) && Tidy(UserLine(j)) && Tidy("state = running")
  {
    TidyConcat("program = ", j.program);
    TidyConcat("username = ", j.userName);
    var l := "system/" + j.jobLabel;
    TidyConcat("system/", j.jobLabel);
    var h := l + " = {";
    assert h[|h| - 1] == '{' && h[0] == 's';
    forall i | 0 <= i < |h| ensures SafeByte(h[i]) && h[i] != '\n' {
      if i < |l| { assert h[i] == l[i]; } else { assert h[i] == " = {"[i - |l|]; }
    }
  }

  lemma PidTidy(p: nat)
    ensures Tidy(PID_KEY + Render(p))
  {
    var d := Render(p);
    assert forall i | 0 <= i < |d| :: Digit(d[i]);
    TidyConcat(PID_KEY, d);
  }

  lemma PrintedTidy(j: JobRecord, pid: Option<nat>)
    requires Printable(j)
    ensures forall k | 0 <= k < |PrintedLines(j, pid)| :: Tidy(PrintedLines(j, pid)[k])
  {
    hide Tidy, Printable, Render;
    HeaderTidy(j);
    if pid.Some? { PidTidy(pid.value); }
  }

  lemma TidyTrim(l: string)
    requires Tidy(l)
    ensures Trim(l) == l && NoNewline(l)
  {
    hide Trim;
    TrimIs(l, 0, |l|);
    assert l[0..|l|] == l;
  }

  /** Indentation hides nothing. */
  lemma IndentedTrim(lines: seq<string>, left: nat -> string, right: nat -> string)
    requires Indents(left, right) && forall k | 0 <= k < |lines| :: Tidy(lines[k])
    ensures var l := Indented(lines, left, right);
            |l| == |lines| && forall k | 0 <= k < |l| :: Trim(l[k]) == lines[k] && SafeLine(l[k])
  {
    hide Trim;
    var l := Indented(lines, left, right);
    forall k | 0 <= k < |l| ensures Trim(l[k]) == lines[k] && SafeLine(l[k]) {
      assert Tidy(lines[k]);
      TrimPadded(left(k), lines[k], right(k));
      SafeIndented(left(k), lines[k], right(k));
    }
  }

  /** The lines `l` without what is around them. */
  ghost predicate Bared(l: seq<string>, lines: seq<string>) {
    |l| == |lines| && forall k | 0 <= k < |l| :: Trim(l[k]) == lines[k]
  }

  /** Line `i` carries a key that no other line starts with. */
  lemma KeyedAt(l: seq<string>, lines: seq<string>, key: string, i: nat)
    requires Bared(l, lines) && i < |lines| && key <= lines[i]
    requires forall k | 0 <= k < |lines| && k != i :: !(key <= lines[k])
    ensures ExactlyKeyed(l, key, lines[i]) && OnlyLine(l, Keyed(key), i)
  {
    hide Trim;
    assert forall k | 0 <= k < |l| :: Passes(Keyed(key), l[k]) <==> key <= lines[k];
  }

  lemma ExactAt(l: seq<string>, lines: seq<string>, i: nat)
    requires Bared(l, lines) && i < |lines| && forall k | 0 <= k < |lines| && k != i :: lines[k] != lines[i]
    ensures OnlyLine(l, Exactly(lines[i]), i)
  {
    hide Trim;
    assert forall k | 0 <= k < |l| :: Passes(Exactly(lines[i]), l[k]) <==> lines[k] == lines[i];
  }

  /** What sets the lines apart: their first two characters. */
  lemma Heads(j: JobRecord, pid: Option<nat>)
    ensures var l := PrintedLines(j, pid);
            && |l| == (if pid.Some? then 5 else 3)
            && (forall k | 0 <= k < |l| :: |l[k]| > 2)
            && l[0][0] == 's' && l[0][1] == 'y' && l[1][0] == 'p' && l[1][1] == 'r' && l[2][0] == 'u' && l[2][1] == 's'
            && (pid.Some? ==> l[3][0] == 's' && l[3][1] == 't' && l[4][0] == 'p' && l[4][1] == 'i')
            && l[0] == Header(j) && l[1] == ProgramLine(j) && l[2] == UserLine(j)
  {
  }

  lemma HasKeys(j: JobRecord, p: nat)
    ensures "program = " <= ProgramLine(j) && "username = " <= UserLine(j) && PID_KEY <= PID_KEY + Render(p)
  {
  }

  lemma OtherKey(key: string, l: string)
    requires |key| > 2 && |l| > 2 && (key[0] != l[0] || key[1] != l[1])
    ensures !(key <= l)
  {
  }

  /** A rendered print is read as a print of its job, and of its process, however its lines are indented. */
  lemma PrintedJobPrints(j: JobRecord, pid: Option<nat>, left: nat -> string, right: nat -> string)
    requires Printable(j) && (pid.Some? ==> PidInRange(pid.value)) && Indents(left, right)
    ensures PrintsJob(PrintedJob(j, pid, left, right), j)
    ensures pid.Some? ==> PrintsRunning(PrintedJob(j, pid, left, right), j, pid.value)
  {
    hide Tidy, Header, ProgramLine, UserLine, Render, Joined, Lines, Passes, Trim, ExactlyKeyed, PidOf, RunningLines,
      PrintedLines, Indented;
    var lines := PrintedLines(j, pid);
    var l := Indented(lines, left, right);
    PrintedTidy(j, pid);
    Heads(j, pid);
    IndentedTrim(lines, left, right);
    JoinedSafe(l);
    LinesOfJoined(l);
    FieldLengths(j);
    ExactAt(l, lines, 0);
    PrintedKeys(l, j, pid);
    if pid.Some? { PrintedPid(l, j, pid.value); }
  }

  lemma FieldLengths(j: JobRecord)
    requires Printable(j)
    ensures |Header(j)| < 192 && |ProgramLine(j)| < 384 && |UserLine(j)| < 128
  {
  }

  lemma PrintedKeys(l: seq<string>, j: JobRecord, pid: Option<nat>)
    requires Printable(j) && Bared(l, PrintedLines(j, pid))
    ensures ExactlyKeyed(l, "program = ", ProgramLine(j)) && ExactlyKeyed(l, "username = ", UserLine(j))
  {
    hide Tidy, Header, ProgramLine, UserLine, Render, ExactlyKeyed, RunningLines, PrintedLines, Bared;
    var lines := PrintedLines(j, pid);
    Heads(j, pid);
    HasKeys(j, 0);
    forall k | 0 <= k < |lines| && k != 1 ensures !("program = " <= lines[k]) { OtherKey("program = ", lines[k]); }
    forall k | 0 <= k < |lines| && k != 2 ensures !("username = " <= lines[k]) { OtherKey("username = ", lines[k]); }
    KeyedAt(l, lines, "program = ", 1);
    KeyedAt(l, lines, "username = ", 2);
  }

  lemma PrintedPid(l: seq<string>, j: JobRecord, p: nat)
    requires Printable(j) && PidInRange(p) && Bared(l, PrintedLines(j, Some(p)))
    ensures ExactlyKeyed(l, "state = ", "state = running") && UniquePid(l, p)
  {
    hide Tidy, Header, ProgramLine, UserLine, Render, ExactlyKeyed, Trim, Strtoul;
    var lines := PrintedLines(j, Some(p));
    Heads(j, Some(p));
    HasKeys(j, p);
    assert lines[3] == "state = running" && lines[4] == PID_KEY + Render(p);
    forall k | 0 <= k < |lines| && k != 3 ensures !("state = " <= lines[k]) { OtherKey("state = ", lines[k]); }
    forall k | 0 <= k < |lines| && k != 4 ensures !(PID_KEY <= lines[k]) { OtherKey(PID_KEY, lines[k]); }
    KeyedAt(l, lines, "state = ", 3);
    KeyedAt(l, lines, PID_KEY, 4);
    PidTidy(p);
    TidyTrim(lines[4]);
    PlainPidAccepted(p);
    assert PidOf(l[4]) == PidOf(lines[4]);
  }
}
