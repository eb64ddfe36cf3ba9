/** Newline-separated text: its lines, their trimmed form, and counting them. */
module LineText {
  import opened Sequences

  predicate Blank(c: char) { c == ' ' || c == '\t' }

  predicate SafeByte(c: char) { c == '\n' || c == '\t' || ' ' <= c <= '~' }

  /** The two classes by their codes. */
  lemma ByteClasses(c: char)
    ensures Blank(c) <==> c as int in {0x20, 0x09}
    ensures SafeByte(c) <==> c as int in {0x09, 0x0a} || 0x20 <= c as int <= 0x7e
  {
  }

  /** Position of the first newline, or the length. */
  function LineEnd(s: string): (e: nat)
    ensures e <= |s| && (forall i | 0 <= i < e :: s[i] != '\n') && (e < |s| ==> s[e] == '\n')
  {
    if s == "" || s[0] == '\n' then 0 else LineEnd(s[1..]) + 1
  }

  /** The lines of a text; a final newline does not open another line. */
  function Lines(s: string): seq<string>
    decreases |s|
  {
    if s == "" then []
    else
      var e := LineEnd(s);
      [s[..e]] + Lines(if e < |s| then s[e + 1..] else "")
  }

  function TrimLeft(s: string): string {
    if s != "" && Blank(s[0]) then TrimLeft(s[1..]) else s
  }

  function TrimRight(s: string): string {
    if s != "" && Blank(s[|s| - 1]) then TrimRight(s[..|s| - 1]) else s
  }

  function Trim(s: string): string { TrimRight(TrimLeft(s)) }

  function Joined(lines: seq<string>): string {
    if lines == [] then "" else lines[0] + "\n" + Joined(lines[1..])
  }

  predicate NoNewline(s: string) { forall i | 0 <= i < |s| :: s[i] != '\n' }

  lemma LineEndIs(s: string, e: nat)
    requires e <= |s| && (forall i | 0 <= i < e :: s[i] != '\n') && (e < |s| ==> s[e] == '\n')
    ensures LineEnd(s) == e
  {
  }

  /** Lines and Joined are inverse to each other on newline-terminated text and newline-free lines. */
  lemma LinesOfJoined(lines: seq<string>)
    requires forall k | 0 <= k < |lines| :: NoNewline(lines[k])
    ensures Lines(Joined(lines)) == lines
  {
    LinesAfterJoined(lines, "");
    assert Joined(lines) + "" == Joined(lines);
  }

  lemma {:induction false} JoinedLines(s: string)
    requires s != "" ==> s[|s| - 1] == '\n'
    ensures Joined(Lines(s)) == s
    decreases |s|
  {
    if s != "" {
      var e := LineEnd(s);
      var rest := s[e + 1..];
      JoinedLines(rest);
      var ls := Lines(s);
      assert ls == [s[..e]] + Lines(rest);
      assert ls[0] == s[..e] && ls[1..] == Lines(rest);
      Around(s, e);
      Assoc(s[..e], "\n", rest);
    }
  }

  lemma {:induction false} JoinedSnoc(lines: seq<string>, l: string)
    ensures Joined(lines + [l]) == Joined(lines) + l + "\n"
  {
    if lines == [] {
      assert [l][1..] == [] && l + "\n" + "" == l + "\n";
    } else {
      JoinedSnoc(lines[1..], l);
      var all := lines + [l];
      Tail(lines, [l]);
      Assoc(lines[0] + "\n", Joined(lines[1..]) + l, "\n");
      Assoc(lines[0] + "\n", Joined(lines[1..]), l);
    }
  }

  lemma FirstLine(l: string, rest: string)
    requires NoNewline(l)
    ensures Lines(l + "\n" + rest) == [l] + Lines(rest)
  {
    var s := l + "\n" + rest;
    assert forall i | 0 <= i < |l| :: s[i] == l[i];
    LineEndIs(s, |l|);
    assert s[..|l|] == l && s[|l| + 1..] == rest;
  }

  /** The first line of a text goes on at least to its first newline. */
  lemma FirstLineKeeps(l: string, c: char, rest: string)
    requires NoNewline(l) && c != '\n'
    ensures var ls := Lines(l + [c] + rest); |ls| > 0 && |ls[0]| > |l| && ls[0][|l|] == c
  {
    var s := l + [c] + rest;
    var e := LineEnd(s);
    assert forall i | 0 <= i < |l| :: s[i] == l[i];
    assert s[|l|] == c;
    assert e > |l|;
    assert Lines(s)[0] == s[..e];
  }

  /** Complete lines in front of a text stay lines of their own. */
  lemma {:induction false} LinesAfterJoined(lines: seq<string>, rest: string)
    requires forall k | 0 <= k < |lines| :: NoNewline(lines[k])
    ensures Lines(Joined(lines) + rest) == lines + Lines(rest)
  {
    hide Lines;
    if lines == [] {
      assert Joined(lines) + rest == rest;
    } else {
      var l, tail := lines[0], lines[1..];
      Assoc(l + "\n", Joined(tail), rest);
      FirstLine(l, Joined(tail) + rest);
      LinesAfterJoined(tail, rest);
      assert [l] + (tail + Lines(rest)) == lines + Lines(rest);
    }
  }

  /** Nothing but spaces and tabs. */
  predicate Padding(s: string) { forall i | 0 <= i < |s| :: s[i] == ' ' || s[i] == '\t' }

  /** Neither starts nor ends with a space or a tab. */
  predicate Bare(t: string) {
    t != "" ==> t[0] != ' ' && t[0] != '\t' && t[|t| - 1] != ' ' && t[|t| - 1] != '\t'
  }

  ghost predicate Padded(line: string, text: string) {
    exists left, right :: Padding(left) && Padding(right) && line == left + text + right
  }

  /** Trimming takes away the spaces and tabs at both ends, all of them and nothing else. */
  lemma TrimExactly(line: string, text: string)
    ensures Trim(line) == text <==> Bare(text) && Padded(line, text)
  {
    hide Trim;
    if Bare(text) && Padded(line, text) {
      var left, right :| Padding(left) && Padding(right) && line == left + text + right;
      TrimPadded(left, text, right);
    }
    var left, right := TrimParts(line);
  }

  lemma TrimPadded(left: string, text: string, right: string)
    requires Padding(left) && Padding(right) && Bare(text)
    ensures Trim(left + text + right) == text
  {
    hide Trim;
    var line := left + text + right;
    var a, b := if text == "" then |line| else |left|, if text == "" then |line| else |left| + |text|;
    assert line[a..b] == text;
    TrimIs(line, a, b);
  }

  lemma TrimParts(line: string) returns (left: string, right: string)
    ensures Padding(left) && Padding(right) && line == left + Trim(line) + right && Bare(Trim(line))
  {
    left := LeftPart(line);
    right := RightPart(TrimLeft(line));
    Assoc(left, Trim(line), right);
    var t, u := Trim(line), TrimLeft(line);
    if t != "" { assert t[0] == u[0]; }
  }

  lemma {:induction false} LeftPart(s: string) returns (left: string)
    ensures Padding(left) && s == left + TrimLeft(s) && (TrimLeft(s) != "" ==> !Blank(TrimLeft(s)[0]))
  {
    left := "";
    if s != "" && Blank(s[0]) {
      left := LeftPart(s[1..]);
      Assoc([s[0]], left, TrimLeft(s[1..]));
      left := [s[0]] + left;
    }
  }

  lemma {:induction false} RightPart(s: string) returns (right: string)
    ensures Padding(right) && s == TrimRight(s) + right
    ensures TrimRight(s) != "" ==> !Blank(TrimRight(s)[|TrimRight(s)| - 1])
    decreases |s|
  {
    right := "";
    if s != "" && Blank(s[|s| - 1]) {
      right := RightPart(s[..|s| - 1]);
      Assoc(TrimRight(s), right, [s[|s| - 1]]);
      right := right + [s[|s| - 1]];
    }
  }

  /** Each line with something in front of it and something behind. */
  function Indented(lines: seq<string>, left: nat -> string, right: nat -> string): seq<string> {
    seq(|lines|, (k: nat) requires k < |lines| => left(k) + lines[k] + right(k))
  }

  /** Bytes that may stand in a line of safe output. */
  predicate SafeLine(l: string) { forall i | 0 <= i < |l| :: SafeByte(l[i]) && l[i] != '\n' }

  lemma SafeIndented(left: string, l: string, right: string)
    requires Padding(left) && SafeLine(l) && Padding(right)
    ensures SafeLine(left + l + right)
  {
    var s := left + l + right;
    assert forall i | 0 <= i < |s| ::
        s[i] == if i < |left| then left[i] else if i < |left| + |l| then l[i - |left|] else right[i - |left| - |l|];
  }

  lemma {:induction false} JoinedSafe(lines: seq<string>)
    requires forall k | 0 <= k < |lines| :: SafeLine(lines[k])
    ensures var s := Joined(lines);
            && (lines != [] ==> s != "" && s[|s| - 1] == '\n') && (forall i | 0 <= i < |s| :: SafeByte(s[i]))
            && forall k | 0 <= k < |lines| :: NoNewline(lines[k])
  {
    if lines != [] {
      var l, rest := lines[0], Joined(lines[1..]);
      JoinedSafe(lines[1..]);
      assert SafeLine(l) && forall k | 1 <= k < |lines| :: lines[k] == lines[1..][k - 1];
      var s := l + "\n" + rest;
      forall i | 0 <= i < |s| ensures SafeByte(s[i]) {
        if i < |l| { assert s[i] == l[i]; } else if i > |l| { assert s[i] == rest[i - |l| - 1]; }
      }
      if rest != "" { assert s[|s| - 1] == rest[|rest| - 1]; }
    }
  }

  /** A trimmed text is what remains when blanks are cut from both ends and from nowhere else. */
  lemma TrimIs(s: string, left: nat, right: nat)
    requires left <= right <= |s|
    requires (forall i | 0 <= i < left :: Blank(s[i])) && (left < |s| ==> !Blank(s[left]))
    requires (forall i | right <= i < |s| :: Blank(s[i])) && (left < right ==> !Blank(s[right - 1]))
    ensures Trim(s) == s[left..right]
  {
    TrimLeftIs(s, left);
    var t := s[left..];
    assert left == right ==> |t| == 0;
    TrimRightIs(t, right - left);
    assert t[..right - left] == s[left..right];
  }

  lemma {:induction false} TrimLeftIs(s: string, left: nat)
    requires left <= |s| && (forall i | 0 <= i < left :: Blank(s[i])) && (left < |s| ==> !Blank(s[left]))
    ensures TrimLeft(s) == s[left..]
  {
    if left > 0 {
      TrimLeftIs(s[1..], left - 1);
      assert s[1..][left - 1..] == s[left..];
    }
  }

  lemma {:induction false} TrimRightIs(s: string, right: nat)
    requires right <= |s| && (forall i | right <= i < |s| :: Blank(s[i])) && (right > 0 ==> !Blank(s[right - 1]))
    ensures TrimRight(s) == s[..right]
    decreases |s|
  {
    if right < |s| {
      TrimRightIs(s[..|s| - 1], right);
      assert s[..|s| - 1][..right] == s[..right];
    }
  }

  method ScanEnd(bytes: string, start: nat) returns (end: nat)
    requires start < |bytes|
    ensures start <= end <= |bytes| && end == start + LineEnd(bytes[start..])
  {
    end := start;
    while end < |bytes| && bytes[end] != '\n'
      invariant start <= end <= |bytes| && forall i | start <= i < end :: bytes[i] != '\n'
    {
      end := end + 1;
    }
    LineEndIs(bytes[start..], end - start);
  }

  /** The trimmed part of one line. */
  method ScanTrimmed(bytes: string, start: nat, end: nat) returns (left: nat, right: nat)
    requires start <= end <= |bytes|
    ensures start <= left <= right <= end && bytes[left..right] == Trim(bytes[start..end])
  {
    hide Trim;
    left := start;
    while left < end && Blank(bytes[left])
      invariant start <= left <= end && forall i | start <= i < left :: Blank(bytes[i])
    {
      left := left + 1;
    }
    right := end;
    while right > left && Blank(bytes[right - 1])
      invariant left <= right <= end && forall i | right <= i < end :: Blank(bytes[i])
    {
      right := right - 1;
    }
    var line := bytes[start..end];
    TrimIs(line, left - start, right - start);
    Within(bytes, start, end, left - start, right - start);
  }

  /** The index scan all line loops share: the next line and its trimmed bounds. */
  method ScanLine(bytes: string, start: nat) returns (end: nat, left: nat, right: nat)
    requires start < |bytes|
    ensures start <= left <= right <= end <= |bytes|
    ensures end == start + LineEnd(bytes[start..])
    ensures bytes[left..right] == Trim(bytes[start..end])
  {
    hide Trim, LineEnd;
    end := ScanEnd(bytes, start);
    left, right := ScanTrimmed(bytes, start, end);
  }

  lemma LinesFirst(s: string)
    requires s != ""
    ensures var e := LineEnd(s); Lines(s) == [s[..e]] + Lines(if e < |s| then s[e + 1..] else "")
  {
    hide LineEnd;
  }

  lemma LinesStep(bytes: string, start: nat, end: nat)
    requires start < |bytes| && end == start + LineEnd(bytes[start..])
    ensures end <= |bytes|
    ensures Lines(bytes[start..]) == [bytes[start..end]] + Lines(if end < |bytes| then bytes[end + 1..] else "")
  {
    hide LineEnd, Lines;
    var s := bytes[start..];
    LinesFirst(s);
    Piece(bytes, start, end - start);
    if end < |bytes| { Piece(bytes, start, end - start + 1); }
  }
}
