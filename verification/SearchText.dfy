/** The output of `dscl -search`: lines of two fields, recognised by counting. */
module SearchText {
  import opened LineText

  predicate Graphic(c: char) { '!' <= c <= '~' }

  /** A field starts at each graphic character that does not follow another one. */
  predicate FieldStart(s: string, i: nat)
    requires i < |s|
  {
    Graphic(s[i]) && (i == 0 || !Graphic(s[i - 1]))
  }

  function FieldCount(s: string): nat {
    if s == "" then 0 else FieldCount(s[..|s| - 1]) + if FieldStart(s, |s| - 1) then 1 else 0
  }

  /** Two fields of graphic characters, kept apart by blanks, the second one ending the line. */
  ghost predicate TwoFields(s: string) {
    && (forall i | 0 <= i < |s| :: Blank(s[i]) || Graphic(s[i]))
    && s != "" && Graphic(s[|s| - 1]) && FieldCount(s) == 2
  }

  /** The same by the shape of the line. */
  ghost predicate TwoFieldsAt(s: string, a: nat, b: nat, c: nat) {
    && a < b < c < |s|
    && (forall i | 0 <= i < |s| :: if a <= i < b || c <= i then Graphic(s[i]) else Blank(s[i]))
  }

  lemma {:induction false} NoFields(s: string)
    requires forall i | 0 <= i < |s| :: Blank(s[i]) || Graphic(s[i])
    ensures FieldCount(s) == 0 <==> forall i | 0 <= i < |s| :: Blank(s[i])
  {
    if s != "" {
      var t := s[..|s| - 1];
      NoFields(t);
      if FieldCount(s) == 0 {
        assert forall i | 0 <= i < |t| :: Blank(t[i]) && t[i] == s[i];
        assert !FieldStart(s, |s| - 1);
      }
    }
  }

  /** Where the last field of a line starts, and the blanks before it. */
  lemma {:induction false} LastField(s: string) returns (b: nat, c: nat)
    requires s != "" && Graphic(s[|s| - 1])
    requires forall i | 0 <= i < |s| :: Blank(s[i]) || Graphic(s[i])
    ensures b <= c < |s| && (forall i | c <= i < |s| :: Graphic(s[i])) && (forall i | b <= i < c :: Blank(s[i]))
    ensures (b > 0 ==> b < c && Graphic(s[b - 1])) && (c > 0 ==> Blank(s[c - 1]))
    ensures FieldCount(s) == FieldCount(s[..b]) + 1
  {
    var t := s[..|s| - 1];
    assert FieldCount(s) == FieldCount(t) + if FieldStart(s, |s| - 1) then 1 else 0;
    if t != "" && Graphic(t[|t| - 1]) {
      b, c := LastField(t);
      assert t[..b] == s[..b];
    } else {
      c := |t|;
      b := TrailingBlanks(t);
      assert t[..b] == s[..b];
    }
  }

  lemma {:induction false} TrailingBlanks(s: string) returns (b: nat)
    requires forall i | 0 <= i < |s| :: Blank(s[i]) || Graphic(s[i])
    ensures b <= |s| && (forall i | b <= i < |s| :: Blank(s[i])) && (b > 0 ==> Graphic(s[b - 1]))
    ensures FieldCount(s) == FieldCount(s[..b])
  {
    b := |s|;
    if s != "" && Blank(s[|s| - 1]) {
      b := TrailingBlanks(s[..|s| - 1]);
      assert s[..|s| - 1][..b] == s[..b];
    } else {
      assert s[..b] == s;
    }
  }

  /** Counting finds exactly the lines of that shape. */
  lemma TwoFieldsForm(s: string)
    ensures TwoFields(s) <==> exists a: nat, b: nat, c: nat :: TwoFieldsAt(s, a, b, c)
  {
    if TwoFields(s) {
      var d, c := LastField(s);
      var front := s[..d];
      assert FieldCount(front) == 1;
      NoFields(front);
      var b, a := LastField(front);
      var rest := front[..b];
      assert forall i | 0 <= i < |rest| :: rest[i] == front[i];
      NoFields(rest);
      assert b == 0;
      assert TwoFieldsAt(s, a, d, c);
    } else if a: nat, b: nat, c: nat :| TwoFieldsAt(s, a, b, c) {
      ShapeCounts(s, a, b, c);
    }
  }

  predicate Word(s: string) { s != "" && forall i | 0 <= i < |s| :: 0x21 <= s[i] as int <= 0x7e }

  /** Two words with spaces and tabs between them, and perhaps in front. */
  ghost predicate TwoWords(s: string) {
    exists lead, first, gap, second ::
      && Padding(lead) && Word(first) && gap != "" && Padding(gap) && Word(second)
      && s == lead + first + gap + second
  }

  lemma TwoFieldsWords(s: string)
    ensures TwoFields(s) <==> TwoWords(s)
  {
    TwoFieldsForm(s);
    if a: nat, b: nat, c: nat :| TwoFieldsAt(s, a, b, c) {
      assert s == s[..a] + s[a..b] + s[b..c] + s[c..];
      assert Padding(s[..a]) && Word(s[a..b]) && Padding(s[b..c]) && Word(s[c..]);
    }
    if TwoWords(s) {
      var lead, first, gap, second :|
        && Padding(lead) && Word(first) && gap != "" && Padding(gap) && Word(second)
        && s == lead + first + gap + second;
      WordsAt(lead, first, gap, second);
    }
  }

  lemma WordsAt(lead: string, first: string, gap: string, second: string)
    requires Padding(lead) && Word(first) && gap != "" && Padding(gap) && Word(second)
    ensures TwoFieldsAt(lead + first + gap + second, |lead|, |lead| + |first|, |lead| + |first| + |gap|)
  {
    var s, a, b := lead + first + gap + second, |lead|, |lead| + |first|;
    var c := b + |gap|;
    assert forall i | 0 <= i < |s| ::
        s[i] == if i < a then lead[i] else if i < b then first[i - a] else if i < c then gap[i - b] else second[i - c];
  }

  lemma ShapeCounts(s: string, a: nat, b: nat, c: nat)
    requires TwoFieldsAt(s, a, b, c)
    ensures TwoFields(s)
  {
    hide FieldCount;
    var d, c' := LastField(s);
    assert Graphic(s[b - 1]) && Blank(s[c - 1]) && Blank(s[b]) && Graphic(s[c]);
    assert c' == c;
    assert d == b;
    var front := s[..b];
    var e, a' := LastField(front);
    assert front[b - 1] == s[b - 1] && front[a] == s[a] && (a > 0 ==> front[a - 1] == s[a - 1]);
    assert a' == a;
    assert e == 0;
    assert front[..0] == "";
    NoFields("");
  }

  /** All of it: nothing, or complete lines of two fields each. */
  ghost predicate SearchResult(s: string) {
    s == "" || (s[|s| - 1] == '\n' && forall k | 0 <= k < |Lines(s)| :: TwoFields(Lines(s)[k]))
  }

  method SafeSearchOutput(bytes: string) returns (ok: bool)
    ensures ok <==> SearchResult(bytes)
  {
    hide TwoFields, FieldCount, Lines;
    if bytes == "" { return true; }
    if bytes[|bytes| - 1] != '\n' { return false; }
    var fields, inField := 0, false;
    ghost var done: seq<string>, line := [], "";
    var index := 0;
    CountEmpty();
    assert Joined(done) + line == bytes[..index];
    while index < |bytes|
      invariant index <= |bytes| && bytes[..index] == Joined(done) + line
      invariant forall k | 0 <= k < |done| :: NoNewline(done[k]) && TwoFields(done[k])
      invariant forall i | 0 <= i < |line| :: Blank(line[i]) || Graphic(line[i])
      invariant && fields + (if inField then 1 else 0) == FieldCount(line)
                && (inField <==> line != "" && Graphic(line[|line| - 1]))
      invariant index > 0 && bytes[index - 1] == '\n' ==> line == ""
    {
      var byte := bytes[index];
      ghost var rest := bytes[index + 1..];
      assert bytes == bytes[..index] + [byte] + rest;
      assert bytes[..index + 1] == bytes[..index] + [byte];
      if byte == '\n' {
        LineJudged(line);
        if fields != 1 || !inField {
          NextLineBad(done, line, rest, bytes);
          return false;
        }
        JoinedSnoc(done, line);
        done, line := done + [line], "";
        fields, inField := 0, false;
        CountEmpty();
      } else if !Blank(byte) && !Graphic(byte) {
        IllegalLineBad(done, line, byte, rest, bytes);
        return false;
      } else {
        CountSnoc(line, byte);
        assert Joined(done) + line + [byte] == Joined(done) + (line + [byte]);
        if Blank(byte) {
          if inField { fields, inField := fields + 1, false; }
        } else {
          inField := true;
        }
        line := line + [byte];
      }
      index := index + 1;
    }
    assert bytes[..index] == bytes;
    assert Joined(done) + "" == Joined(done);
    LinesOfJoined(done);
    ok := fields == 0 && !inField;
  }

  lemma CountEmpty()
    ensures FieldCount("") == 0
  {
  }

  lemma CountSnoc(line: string, c: char)
    ensures FieldCount(line + [c]) ==
            FieldCount(line) + if Graphic(c) && (line == "" || !Graphic(line[|line| - 1])) then 1 else 0
  {
    var all := line + [c];
    assert all[..|all| - 1] == line;
  }

  lemma LineJudged(line: string)
    requires forall i | 0 <= i < |line| :: Blank(line[i]) || Graphic(line[i])
    ensures TwoFields(line) <==> line != "" && Graphic(line[|line| - 1]) && FieldCount(line) == 2
  {
  }

  lemma NextLineBad(done: seq<string>, line: string, rest: string, bytes: string)
    requires forall k | 0 <= k < |done| :: NoNewline(done[k])
    requires NoNewline(line) && !TwoFields(line) && bytes == Joined(done) + line + ['\n'] + rest
    ensures !SearchResult(bytes)
  {
    hide TwoFields, Lines;
    assert bytes == Joined(done) + (line + "\n" + rest);
    LinesAfterJoined(done, line + "\n" + rest);
    FirstLine(line, rest);
    assert Lines(bytes)[|done|] == line;
  }

  lemma IllegalLineBad(done: seq<string>, line: string, c: char, rest: string, bytes: string)
    requires forall k | 0 <= k < |done| :: NoNewline(done[k])
    requires NoNewline(line) && c != '\n' && !Blank(c) && !Graphic(c) && bytes == Joined(done) + line + [c] + rest
    ensures !SearchResult(bytes)
  {
    hide FieldCount, Lines;
    var tail := line + [c] + rest;
    assert bytes == Joined(done) + tail;
    LinesAfterJoined(done, tail);
    FirstLineKeeps(line, c, rest);
    assert Lines(bytes)[|done|] == Lines(tail)[0];
  }
}
