/** The output of `dscl -read`: four keyed lines in any order, and the record they describe. */
module DirectoryText {
  import opened Basics
  import opened Sequences
  import opened LineText
  import opened Decimals
  import opened Records
  import Ownership = AccountOwnership

  const OUTPUT_MAX: nat := 8192

  /** The adapter accepts one of the two shells the account layer knows. */
  predicate AdapterRecord(r: AccountRecord) {
    Ownership.ValidRecord(r) && r.shell == "/usr/bin/false"
  }

  // ---- one line ----

  /** Where the first ": " stands. */
  function Colon(line: string): (at: Option<nat>)
    ensures at.Some? ==> && at.value + 2 <= |line| && line[at.value] == ':' && line[at.value + 1] == ' '
                         && forall i | 0 <= i < at.value :: line[i] != ':' || line[i + 1] != ' '
    ensures at.None? ==> forall i | 0 <= i && i + 1 < |line| :: line[i] != ':' || line[i + 1] != ' '
  {
    if |line| < 2 then None
    else if line[0] == ':' && line[1] == ' ' then Some(0)
    else match Colon(line[1..]) case Some(n) => Some(n + 1) case None => None
  }

  predicate Spaceless(s: string) { forall i | 0 <= i < |s| :: !Space(s[i]) }

  function KeyName(k: nat): string {
    match k case 0 => "UniqueID" case 1 => "GeneratedUID" case 2 => "UserShell" case _ => "NFSHomeDirectory"
  }

  /** What the record can hold of each property. */
  predicate Fits(k: nat, value: string) {
    if k == 0 then Strtoul(value).Some? && 1 <= Strtoul(value).value <= 499
    else |value| < if k == 1 then 37 else 64
  }

  datatype Field = Field(key: nat, value: string)

  function KeyOf(name: string): Option<nat> {
    if name == KeyName(0) then Some(0) else if name == KeyName(1) then Some(1)
    else if name == KeyName(2) then Some(2) else if name == KeyName(3) then Some(3) else None
  }

  /** One of the four properties with an acceptable value. */
  function ParseLine(line: string): (f: Option<Field>)
    ensures f.Some? ==> f.value.key < 4 && Fits(f.value.key, f.value.value)
  {
    match Colon(line)
    case None => None
    case Some(at) =>
      var value := line[at + 2..];
      var key := KeyOf(line[..at]);
      if value == "" || !Spaceless(value) || key.None? || !Fits(key.value, value) then None
      else Some(Field(key.value, value))
  }

  function RenderLine(f: Field): string { KeyName(f.key) + ": " + f.value }

  lemma KeyHasNoColon(k: nat)
    ensures ':' !in KeyName(k) && KeyName(k) != ""
    ensures k < 4 ==> KeyOf(KeyName(k)) == Some(k)
  {
    assert KeyName(0) == "UniqueID" && KeyName(1) == "GeneratedUID" && KeyName(2) == "UserShell";
    assert |KeyName(0)| == 8 && |KeyName(1)| == 12 && |KeyName(2)| == 9 && |KeyName(3)| == 16;
  }

  lemma {:induction false} ColonIs(line: string, at: nat)
    requires at + 2 <= |line| && line[at] == ':' && line[at + 1] == ' ' && forall i | 0 <= i < at :: line[i] != ':'
    ensures Colon(line) == Some(at)
  {
  }

  /** A rendered property parses back. */
  lemma ParseRendered(f: Field)
    requires f.key < 4 && f.value != "" && Spaceless(f.value) && Fits(f.key, f.value)
    ensures ParseLine(RenderLine(f)) == Some(f)
  {
    hide KeyName, Fits, Spaceless;
    var key := KeyName(f.key);
    var line := RenderLine(f);
    KeyHasNoColon(f.key);
    Assoc(key, ": ", f.value);
    assert line == key + (": " + f.value);
    assert forall i | 0 <= i < |key| :: line[i] == key[i];
    ColonIs(line, |key|);
    assert line[..|key|] == key && line[|key| + 2..] == f.value;
  }

  // ---- all lines ----

  /** strtok sees only the lines that hold something. */
  function NonEmpty(lines: seq<string>): seq<string> {
    if lines == [] then [] else (if lines[0] == "" then [] else [lines[0]]) + NonEmpty(lines[1..])
  }

  type Values = v: seq<string> | |v| == 4 witness ["", "", "", ""]

  /** Four lines, among them each of the four properties. */
  ghost predicate Describes(lines: seq<string>, v: Values) {
    |lines| == 4 && forall k: nat | k < 4 :: Shows(lines, k, v[k])
  }

  ghost predicate Shows(lines: seq<string>, k: nat, value: string) {
    exists i :: 0 <= i < |lines| && ParseLine(lines[i]) == Some(Field(k, value))
  }

  /** A line that is no property, or one of two lines for the same property, spoils the description. */
  lemma Intruder(lines: seq<string>, i: nat, v: Values)
    requires i < |lines| && Describes(lines, v)
    ensures ParseLine(lines[i]).Some? && ParseLine(lines[i]).value.value == v[ParseLine(lines[i]).value.key]
    ensures forall j | 0 <= j < |lines| && j != i ::
              ParseLine(lines[j]).Some? ==> ParseLine(lines[j]).value.key != ParseLine(lines[i]).value.key
  {
    hide ParseLine, Shows, Describes;
    PlaceOf(lines, v, i);
    var k := ParseLine(lines[i]).value.key;
    forall j: nat | j < |lines| && j != i && ParseLine(lines[j]).Some?
      ensures ParseLine(lines[j]).value.key != k
    {
      PlaceOf(lines, v, j);
    }
  }

  /** Four lines for four properties: each line is the place of its own. */
  lemma PlaceOf(lines: seq<string>, v: Values, j: nat)
    requires Describes(lines, v) && j < |lines|
    ensures ParseLine(lines[j]).Some? && ParseLine(lines[j]).value.key < 4
    ensures var k := ParseLine(lines[j]).value.key;
            ParseLine(lines[j]).value.value == v[k] && Shows(lines, k, v[k]) && Where(lines, k, v[k]) == j
  {
    hide ParseLine, Shows;
    var a, b, c, d := Where(lines, 0, v[0]), Where(lines, 1, v[1]), Where(lines, 2, v[2]), Where(lines, 3, v[3]);
    OneOfFour(a, b, c, d, j);
  }

  lemma OneOfFour(a: nat, b: nat, c: nat, d: nat, j: nat)
    requires a < 4 && b < 4 && c < 4 && d < 4 && j < 4
    requires a != b && a != c && a != d && b != c && b != d && c != d
    ensures j == a || j == b || j == c || j == d
  {
  }

  ghost function Where(lines: seq<string>, k: nat, value: string): (i: nat)
    requires Shows(lines, k, value)
    ensures i < |lines| && ParseLine(lines[i]) == Some(Field(k, value))
  {
    var i :| 0 <= i < |lines| && ParseLine(lines[i]) == Some(Field(k, value));
    i
  }

  function RecordOf(v: Values): AccountRecord {
    AccountRecord(ACCOUNT_NAME, if Strtoul(v[0]).Some? then Strtoul(v[0]).value else 0, v[1], v[2], v[3])
  }

  predicate Usable(s: string) {
    0 < |s| <= OUTPUT_MAX && s[|s| - 1] == '\n' && '\0' !in s
  }

  /** `s` prints the record with these values. */
  ghost predicate Prints(s: string, v: Values) {
    Usable(s) && Describes(NonEmpty(Lines(s)), v) && AdapterRecord(RecordOf(v))
  }

  /** The properties seen so far. */
  ghost predicate Seen(lines: seq<string>, n: nat, seen: seq<Option<string>>) {
    && |seen| == 4 && n <= |lines|
    && (forall k: nat | k < 4 && seen[k].Some? :: Shows(lines[..n], k, seen[k].value))
    && (forall k: nat | k < 4 && seen[k].None? ::
          forall i | 0 <= i < n :: ParseLine(lines[i]).Some? ==> ParseLine(lines[i]).value.key != k)
    && (forall i | 0 <= i < n :: ParseLine(lines[i]).Some?)
    && n == Flag(seen[0]) + Flag(seen[1]) + Flag(seen[2]) + Flag(seen[3])
  }

  function Flag(o: Option<string>): nat { if o.Some? then 1 else 0 }

  lemma SeenNext(lines: seq<string>, n: nat, seen: seq<Option<string>>, f: Field)
    requires Seen(lines, n, seen) && n < |lines| && ParseLine(lines[n]) == Some(f) && seen[f.key].None?
    ensures Seen(lines, n + 1, seen[f.key := Some(f.value)])
  {
    hide ParseLine, Shows;
    var more := seen[f.key := Some(f.value)];
    ShowsMore(lines, n);
    ShownNow(lines, n, f);
  }

  lemma ShowsMore(lines: seq<string>, n: nat)
    requires n < |lines|
    ensures forall k: nat, x: string :: Shows(lines[..n], k, x) ==> Shows(lines[..n + 1], k, x)
  {
    hide ParseLine;
    assert forall i | 0 <= i < n :: lines[..n][i] == lines[..n + 1][i];
  }

  lemma ShownNow(lines: seq<string>, n: nat, f: Field)
    requires n < |lines| && ParseLine(lines[n]) == Some(f)
    ensures Shows(lines[..n + 1], f.key, f.value)
  {
    hide ParseLine;
    assert lines[..n + 1][n] == lines[n];
  }

  lemma SeenTwice(lines: seq<string>, n: nat, seen: seq<Option<string>>, k: nat, v: Values)
    requires Seen(lines, n, seen) && n < |lines| && k < 4 && seen[k].Some?
    requires ParseLine(lines[n]).Some? && ParseLine(lines[n]).value.key == k
    ensures !Describes(lines, v)
  {
    hide ParseLine;
    var i :| 0 <= i < n && ParseLine(lines[..n][i]) == Some(Field(k, seen[k].value));
    assert lines[..n][i] == lines[i];
    if Describes(lines, v) { Intruder(lines, n, v); assert false; }
  }

  lemma SeenAll(lines: seq<string>, seen: seq<Option<string>>, v: Values)
    requires Seen(lines, |lines|, seen)
    ensures (exists k: nat :: k < 4 && seen[k].None?) ==> !Describes(lines, v)
    ensures Describes(lines, v) ==> forall k: nat | k < 4 :: seen[k] == Some(v[k])
    ensures (forall k: nat | k < 4 :: seen[k] == Some(v[k])) ==> Describes(lines, v)
  {
    hide ParseLine;
    assert lines[..|lines|] == lines;
    if Describes(lines, v) {
      forall k: nat | k < 4 ensures seen[k] == Some(v[k]) {
        assert Shows(lines, k, v[k]);
        var i :| 0 <= i < |lines| && ParseLine(lines[i]) == Some(Field(k, v[k]));
        if seen[k].Some? {
          var j :| 0 <= j < |lines| && ParseLine(lines[j]) == Some(Field(k, seen[k].value));
          Intruder(lines, j, v);
        }
      }
    }
  }

  /** The parser accepts exactly the printed valid records. */
  method ParseRecord(s: string) returns (r: Option<AccountRecord>, ghost v: Values)
    ensures r.Some? ==> Prints(s, v) && r.value == RecordOf(v)
    ensures r.None? ==> forall x: Values :: !Prints(s, x)
  {
    hide ParseLine, Lines, NonEmpty, Describes, Shows, AdapterRecord, Seen, Strtoul;
    v := ["", "", "", ""];
    if !Usable(s) { return None, v; }
    var lines := NonEmpty(Lines(s));
    var seen: seq<Option<string>> := [None, None, None, None];
    var n := 0;
    SeenNothing(lines);
    while n < |lines|
      invariant n <= |lines| && Seen(lines, n, seen) && |seen| == 4
    {
      var f := ParseLine(lines[n]);
      if f.None? {
        forall x: Values ensures !Prints(s, x) { if Describes(lines, x) { Intruder(lines, n, x); assert false; } }
        return None, v;
      }
      if seen[f.value.key].Some? {
        forall x: Values ensures !Prints(s, x) { SeenTwice(lines, n, seen, f.value.key, x); }
        return None, v;
      }
      SeenNext(lines, n, seen, f.value);
      seen := seen[f.value.key := Some(f.value.value)];
      n := n + 1;
    }
    if seen[0].None? || seen[1].None? || seen[2].None? || seen[3].None? {
      forall x: Values ensures !Prints(s, x) { SeenAll(lines, seen, x); }
      return None, v;
    }
    v := [seen[0].value, seen[1].value, seen[2].value, seen[3].value];
    SeenAll(lines, seen, v);
    forall x: Values | Describes(lines, x) ensures x == v {
      SeenAll(lines, seen, x);
      assert seen[0] == Some(x[0]) && seen[1] == Some(x[1]) && seen[2] == Some(x[2]) && seen[3] == Some(x[3]);
    }
    var record := RecordOf([seen[0].value, seen[1].value, seen[2].value, seen[3].value]);
    r := if AdapterRecord(record) then Some(record) else None;
  }

  lemma SeenNothing(lines: seq<string>)
    ensures Seen(lines, 0, [None, None, None, None])
  {
  }

  // ---- printing ----

  function Property(r: AccountRecord, k: nat): string {
    match k case 0 => Render(r.uniqueId) case 1 => r.generatedUid case 2 => r.shell case _ => r.home
  }

  /** One line of the print. */
  function LineOf(r: AccountRecord, k: nat): string {
    match k
    case 0 => "UniqueID: " + Render(r.uniqueId)
    case 1 => "GeneratedUID: " + r.generatedUid
    case 2 => "UserShell: " + r.shell
    case _ => "NFSHomeDirectory: " + r.home
  }

  lemma LineOfField(r: AccountRecord, k: nat)
    requires k < 4
    ensures LineOf(r, k) == RenderLine(Field(k, Property(r, k)))
  {
    hide Render;
  }

  function ValuesOf(r: AccountRecord): Values { [Property(r, 0), Property(r, 1), Property(r, 2), Property(r, 3)] }

  predicate Order(o: seq<nat>) {
    |o| == 4 && (forall i | 0 <= i < 4 :: o[i] < 4) && (forall i, j | 0 <= i < j < 4 :: o[i] != o[j])
  }

  /** The record as dscl prints it, its four lines in any order. */
  function Printed(r: AccountRecord, o: seq<nat>): string
    requires Order(o)
  {
    Joined(PrintedLines(r, o))
  }

  function PrintedLines(r: AccountRecord, o: seq<nat>): seq<string>
    requires Order(o)
  {
    [LineOf(r, o[0]), LineOf(r, o[1]), LineOf(r, o[2]), LineOf(r, o[3])]
  }

  /** Every property of a valid record is a plain short word that fits. */
  lemma PropertyPlain(r: AccountRecord, k: nat)
    requires AdapterRecord(r) && k < 4
    ensures var p := Property(r, k); p != "" && |p| <= 36 && Spaceless(p) && '\0' !in p && Fits(k, p)
  {
    if k == 0 {
      var p := Render(r.uniqueId);
      RenderLength(r.uniqueId, 3);
      DecRender(r.uniqueId);
      StrtoulDigits(p);
      assert forall i | 0 <= i < |p| :: Digit(p[i]);
    } else if k == 1 {
      var g := r.generatedUid;
      assert forall i | 0 <= i < 36 :: g[i] == '-' || Ownership.UpperHex(g[i]);
    }
  }

  lemma LinePlain(r: AccountRecord, k: nat)
    requires AdapterRecord(r) && k < 4
    ensures var l := LineOf(r, k);
            l != "" && |l| <= 60 && NoNewline(l) && '\0' !in l && ParseLine(l) == Some(Field(k, Property(r, k)))
  {
    hide Property, AdapterRecord;
    PropertyPlain(r, k);
    ParseRendered(Field(k, Property(r, k)));
    LineOfField(r, k);
    KeyPlain(k);
    hide Fits, KeyName;
    var l := LineOf(r, k);
    assert l == KeyName(k) + ": " + Property(r, k);
    assert |": "| == 2;
    forall i | 0 <= i < |l| ensures l[i] != '\n' && l[i] != '\0' {
      if i < |KeyName(k)| {
        assert l[i] == KeyName(k)[i];
      } else if i >= |KeyName(k)| + 2 {
        assert l[i] == Property(r, k)[i - |KeyName(k)| - 2];
      }
    }
  }

  lemma KeyPlain(k: nat)
    ensures |KeyName(k)| <= 16 && forall i | 0 <= i < |KeyName(k)| :: KeyName(k)[i] != '\n' && KeyName(k)[i] != '\0'
  {
    var s := KeyName(k);
    assert s in {"UniqueID", "GeneratedUID", "UserShell", "NFSHomeDirectory"};
  }

  lemma {:induction false} NonEmptyAll(lines: seq<string>)
    requires forall i | 0 <= i < |lines| :: lines[i] != ""
    ensures NonEmpty(lines) == lines
  {
    if lines != [] { NonEmptyAll(lines[1..]); }
  }

  lemma {:induction false} JoinedPlain(lines: seq<string>)
    requires forall i | 0 <= i < |lines| :: |lines[i]| <= 60 && '\0' !in lines[i]
    ensures var s := Joined(lines); |s| <= 61 * |lines| && '\0' !in s && (lines != [] ==> s != "" && s[|s| - 1] == '\n')
  {
    if lines != [] { JoinedPlain(lines[1..]); }
  }

  /** Printing in any order describes the record, and only that one. */
  lemma PrintedPrints(r: AccountRecord, o: seq<nat>)
    requires AdapterRecord(r) && Order(o)
    ensures Prints(Printed(r, o), ValuesOf(r)) && RecordOf(ValuesOf(r)) == r
  {
    hide ParseLine, LineOf, AdapterRecord, Property, Lines, NonEmpty, Joined;
    var lines := PrintedLines(r, o);
    forall i | 0 <= i < 4 ensures lines[i] != "" && |lines[i]| <= 60 && NoNewline(lines[i]) && '\0' !in lines[i] &&
                                  ParseLine(lines[i]) == Some(Field(o[i], Property(r, o[i]))) {
      LinePlain(r, o[i]);
    }
    LinesOfJoined(lines);
    NonEmptyAll(lines);
    JoinedPlain(lines);
    forall k: nat | k < 4 ensures Shows(lines, k, ValuesOf(r)[k]) {
      var i := OrderHits(o, k);
      assert ParseLine(lines[i]) == Some(Field(k, ValuesOf(r)[k]));
    }
    UidBack(r);
  }

  lemma UidBack(r: AccountRecord)
    requires AdapterRecord(r)
    ensures RecordOf(ValuesOf(r)) == r
  {
    DecRender(r.uniqueId);
    StrtoulDigits(Render(r.uniqueId));
  }

  lemma OrderHits(o: seq<nat>, k: nat) returns (i: nat)
    requires Order(o) && k < 4
    ensures i < 4 && o[i] == k
  {
    i := if o[0] == k then 0 else if o[1] == k then 1 else if o[2] == k then 2 else 3;
  }

  /** Reading a printed record gives the record back. */
  method RoundTrip(r: AccountRecord, o: seq<nat>) returns (back: Option<AccountRecord>)
    requires AdapterRecord(r) && Order(o)
    ensures back == Some(r)
  {
    hide Printed, Prints, AdapterRecord;
    PrintedPrints(r, o);
    ghost var v;
    back, v := ParseRecord(Printed(r, o));
    PrintsOnce(Printed(r, o), v, ValuesOf(r));
  }

  lemma PrintsOnce(s: string, v: Values, w: Values)
    requires Prints(s, v) && Prints(s, w)
    ensures v == w
  {
    hide ParseLine;
    var lines := NonEmpty(Lines(s));
    forall k: nat | k < 4 ensures v[k] == w[k] {
      assert Shows(lines, k, v[k]);
      Intruder(lines, Where(lines, k, v[k]), w);
    }
    assert v == [v[0], v[1], v[2], v[3]] && w == [w[0], w[1], w[2], w[3]];
  }

  /** Printing is not the only accepted form: strtoul also reads every account number from far below zero. */
  lemma NegativeForm(u: nat)
    requires 1 <= u <= 499
    ensures var v := "-" + Render(ULONG_RANGE - u);
            Strtoul(v) == Some(u) && v != Render(u) && ParseLine(RenderLine(Field(0, v))) == Some(Field(0, v))
  {
    hide Render, Dec, Strtoul, KeyName, ParseLine, RenderLine;
    var d := Render(ULONG_RANGE - u);
    var v := "-" + d;
    DecRender(ULONG_RANGE - u);
    assert v[0] == '-' && v[1..] == d && SkipSpace(v) == v;
    StrtoulMinus(v);
    assert Digits(Render(u)) && !Digit(v[0]);
    assert forall i | 0 <= i < |d| :: Digit(d[i]) && v[i + 1] == d[i];
    ParseRendered(Field(0, v));
  }

  /**
   The accepted texts of an account number: digits with an optional plus sign, or a minus sign and its negative modulo
   2^64.
   */
  predicate UidText(value: string, u: nat) {
    || (value != "" && Digits(value) && Dec(value) == u)
    || (|value| > 1 && value[0] == '+' && Digits(value[1..]) && Dec(value[1..]) == u)
    || (|value| > 1 && value[0] == '-' && Digits(value[1..]) && Dec(value[1..]) == ULONG_RANGE - u)
  }

  /** All of them, and nothing else: a line gives the number `u` exactly if its value has one of these forms. */
  lemma UidForm(value: string, u: nat)
    requires 1 <= u <= 499 && Spaceless(value)
    ensures Strtoul(value) == Some(u) <==> UidText(value, u)
    ensures ParseLine(RenderLine(Field(0, value))) == Some(Field(0, value)) && Strtoul(value) == Some(u) <==>
            UidText(value, u)
  {
    hide ParseLine, RenderLine, Dec, KeyName;
    if value != "" {
      assert !Space(value[0]) && SkipSpace(value) == value;
      if Strtoul(value) == Some(u) { ParseRendered(Field(0, value)); }
    } else {
      assert SkipSpace(value) == "";
    }
  }

  /** Of these only the plain one without a leading zero is what printing the number gives. */
  lemma CanonicalUid(value: string, u: nat)
    requires 1 <= u <= 499 && Spaceless(value) && Strtoul(value) == Some(u)
    ensures value == Render(u) <==> value != "" && Digit(value[0]) && value[0] != '0'
  {
    hide Strtoul, Dec, Render;
    UidForm(value, u);
    RenderHead(u);
    if value != "" && Digit(value[0]) && value[0] != '0' { RenderDec(value); }
    assert Digit(Render(u)[0]);
  }
}
