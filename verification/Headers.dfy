/** Which caller headers the broker passes on, and which header names a policy may pin. */
module Headers {
  import opened Basics
  import opened Sequences

  datatype HeaderValue = Missing | One(text: string) | Many(texts: seq<string>)

  datatype Header = Header(name: string, value: HeaderValue)

  /** On the bytes a header can carry, ISO 8859-1. */
  function LowerChar(c: char): char {
    if 'A' <= c <= 'Z' || ('\U{C0}' <= c <= '\U{DE}' && c != '\U{D7}') then c - 'A' + 'a' else c
  }

  function ToLower(s: string): (r: string)
    ensures |r| == |s|
  {
    seq(|s|, i requires 0 <= i < |s| => LowerChar(s[i]))
  }

  /** Lower-casing moves the twenty-six letters, and the thirty accented ones, by 32 and leaves the rest. */
  lemma ToLowerAt(s: string, k: nat)
    requires k < |s|
    ensures var c, d := s[k] as int, ToLower(s)[k] as int;
            && (0x41 <= c <= 0x5a || 0xc0 <= c <= 0xd6 || 0xd8 <= c <= 0xde ==> d == c + 0x20)
            && (c < 0x41 || 0x5a < c < 0xc0 || c == 0xd7 || c > 0xde ==> d == c)
  {
    assert ToLower(s)[k] == LowerChar(s[k]);
  }

  /** White space and line ends, as `trim` takes them. */
  predicate JsSpace(c: char) {
    var n := c as int;
    || 0x09 <= n <= 0x0d || 0x2000 <= n <= 0x200a
    || n in {0x20, 0xa0, 0x1680, 0x2028, 0x2029, 0x202f, 0x205f, 0x3000, 0xfeff}
  }

  function TrimJs(s: string): string
    decreases |s|
  {
    if s == "" then ""
    else if JsSpace(s[0]) then TrimJs(s[1..])
    else if JsSpace(s[|s| - 1]) then TrimJs(s[..|s| - 1])
    else s
  }

  predicate White(s: string) { forall i | 0 <= i < |s| :: JsSpace(s[i]) }

  /** Trimming takes away the white space at both ends, all of it and nothing else. */
  lemma TrimJsExactly(s: string, t: string)
    ensures TrimJs(s) == t <==>
            && (t != "" ==> !JsSpace(t[0]) && !JsSpace(t[|t| - 1]))
            && exists left, right :: White(left) && White(right) && s == left + t + right
  {
    hide JsSpace;
    var left, right := TrimJsParts(s);
    if a, b :| White(a) && White(b) && s == a + t + b && (t != "" ==> !JsSpace(t[0]) && !JsSpace(t[|t| - 1])) {
      TrimJsAround(a, t, b);
    }
  }

  lemma {:induction false} TrimJsParts(s: string) returns (left: string, right: string)
    ensures White(left) && White(right) && s == left + TrimJs(s) + right
    ensures var t := TrimJs(s); t != "" ==> !JsSpace(t[0]) && !JsSpace(t[|t| - 1])
    decreases |s|
  {
    hide JsSpace;
    left, right := "", "";
    if s != "" && JsSpace(s[0]) {
      left, right := TrimJsParts(s[1..]);
      assert s == [s[0]] + s[1..];
      left := [s[0]] + left;
    } else if s != "" && JsSpace(s[|s| - 1]) {
      left, right := TrimJsParts(s[..|s| - 1]);
      assert s == s[..|s| - 1] + [s[|s| - 1]];
      right := right + [s[|s| - 1]];
    }
  }

  lemma {:induction false} TrimJsAround(left: string, t: string, right: string)
    requires White(left) && White(right) && (t != "" ==> !JsSpace(t[0]) && !JsSpace(t[|t| - 1]))
    ensures TrimJs(left + t + right) == t
    decreases |left|, |right|
  {
    hide JsSpace;
    var s := left + t + right;
    if left != "" {
      assert s[0] == left[0] && s[1..] == left[1..] + t + right;
      TrimJsAround(left[1..], t, right);
    } else if right != "" {
      assert s[|s| - 1] == right[|right| - 1] && s[..|s| - 1] == left + t + right[..|right| - 1];
      if t == "" {
        assert s == right && s[0] == right[0] && s[1..] == left + t + right[1..];
        TrimJsAround(left, t, right[1..]);
      } else {
        assert s[0] == t[0];
        TrimJsAround(left, t, right[..|right| - 1]);
      }
    } else {
      assert s == t;
    }
  }

  function Join(parts: seq<string>, glue: string): string {
    if parts == [] then "" else if |parts| == 1 then parts[0] else parts[0] + glue + Join(parts[1..], glue)
  }

  predicate CommaFree(s: string) { forall i | 0 <= i < |s| :: s[i] != ',' }

  /** The text between commas; always at least one part. */
  function SplitComma(s: string): (parts: seq<string>)
    ensures parts != []
  {
    if s == "" then [""]
    else
      var rest := SplitComma(s[1..]);
      if s[0] == ',' then [""] + rest else [[s[0]] + rest[0]] + rest[1..]
  }

  /** Splitting is the one way to read a text as comma-free parts joined by commas. */
  lemma {:induction false} SplitJoin(s: string)
    ensures Join(SplitComma(s), ",") == s && forall k | 0 <= k < |SplitComma(s)| :: CommaFree(SplitComma(s)[k])
  {
    if s != "" {
      SplitJoin(s[1..]);
      var rest := SplitComma(s[1..]);
      var parts := SplitComma(s);
      if s[0] == ',' {
        assert parts[1..] == rest;
        assert "" + "," + Join(rest, ",") == s;
      } else {
        assert parts[0] == [s[0]] + rest[0] && parts[1..] == rest[1..];
        if |rest| > 1 { Assoc([s[0]], rest[0], ","); Assoc([s[0]], rest[0] + ",", Join(rest[1..], ",")); }
        assert [s[0]] + s[1..] == s;
        forall k | 0 <= k < |parts| ensures CommaFree(parts[k]) {
          if k > 0 { assert parts[k] == rest[k]; }
        }
      }
    }
  }

  lemma {:induction false} SplitUnique(parts: seq<string>)
    requires parts != [] && forall k | 0 <= k < |parts| :: CommaFree(parts[k])
    ensures SplitComma(Join(parts, ",")) == parts
    decreases |parts|, |parts[0]|
  {
    var p, rest := parts[0], parts[1..];
    var s := Join(parts, ",");
    if p != "" {
      var shorter := [p[1..]] + rest;
      assert forall k | 0 <= k < |shorter| :: CommaFree(shorter[k]) by {
        assert forall k | 1 <= k < |shorter| :: shorter[k] == parts[k];
      }
      SplitUnique(shorter);
      assert [p[0]] + p[1..] == p;
      assert shorter[1..] == rest;
      if rest != [] { Assoc([p[0]], p[1..], ","); Assoc([p[0]], p[1..] + ",", Join(rest, ",")); }
      assert s == [p[0]] + Join(shorter, ",");
      assert s[1..] == Join(shorter, ",");
      assert [p] + rest == parts;
    } else if rest == [] {
      assert s == "" && parts == [""];
    } else {
      SplitUnique(rest);
      assert s == "," + Join(rest, ",");
      assert s[1..] == Join(rest, ",");
      assert [""] + rest == parts;
    }
  }

  function ValueText(v: HeaderValue, glue: string): string {
    match v case Missing => "" case One(s) => s case Many(ss) => Join(ss, glue)
  }

  /** A name the Connection header nominates: section 7.6.1 of RFC 9110. */
  predicate Nominated(connection: string, name: string) {
    name != "" && exists k | 0 <= k < |SplitComma(connection)| :: ToLower(TrimJs(SplitComma(connection)[k])) == name
  }

  /** The set of nominated names, part by part. */
  method ConnectionTokens(connection: string) returns (tokens: set<string>)
    ensures forall name :: name in tokens <==> Nominated(connection, name)
  {
    var parts := SplitComma(connection);
    tokens := {};
    for k := 0 to |parts|
      invariant forall name ::
          name in tokens <==> name != "" && exists j | 0 <= j < k :: ToLower(TrimJs(parts[j])) == name
    {
      var token := ToLower(TrimJs(parts[k]));
      if token != "" { tokens := tokens + {token}; }
    }
  }

  const UNSAFE_NAMES: set<string> := {
    "authorization", "connection", "cookie", "expect", "host", "http2-settings", "keep-alive", "max-forwards",
    "proxy-authenticate", "proxy-authorization", "proxy-connection", "set-cookie", "te", "trailer",
    "transfer-encoding", "upgrade", "via", "www-authenticate"}

  const UNSAFE_PREFIXES: seq<string> := ["access-control-", "content-", "forwarded", "proxy-", "sec-", "x-forwarded-"]

  /** Credential, protocol and routing headers a caller may not set. The same tables forbid a policy to pin them. */
  predicate Reserved(name: string) {
    name in UNSAFE_NAMES || exists k | 0 <= k < |UNSAFE_PREFIXES| :: UNSAFE_PREFIXES[k] <= name
  }

  predicate Unsafe(name: string, pinned: Option<string>, connection: string) {
    pinned == Some(name) || Nominated(connection, name) || Reserved(name)
  }

  predicate TokenChar(c: char) {
    '0' <= c <= '9' || 'a' <= c <= 'z' ||
    c in {'!', '#', '$', '%', '&', '\'', '*', '+', '-', '.', '^', '_', '`', '|', '~'}
  }

  const MAX_HEADER_NAME: nat := 128

  /** Header names an API-key policy may pin. */
  predicate PinnableHeader(name: string) {
    name != "" && (forall i | 0 <= i < |name| :: TokenChar(name[i])) && |name| <= MAX_HEADER_NAME && !Reserved(name)
  }

  /** A pinnable name is lower case already, so the injected header and a caller's of the same name share one key. */
  lemma PinnableIsLower(name: string)
    requires PinnableHeader(name)
    ensures ToLower(name) == name
  {
    forall i | 0 <= i < |name| ensures ToLower(name)[i] == name[i] { assert TokenChar(name[i]); }
  }

  /** Header `i` is passed on under `key`. */
  predicate Passes(headers: seq<Header>, i: nat, key: string, pinned: Option<string>, connection: string)
    requires i < |headers|
  {
    headers[i].value != Missing && ToLower(headers[i].name) == key && !Unsafe(key, pinned, connection)
  }

  /** What the filtered map holds: for each passed name the value of the last such header, and no other name. */
  ghost predicate Filtered(out: map<string, string>, headers: seq<Header>, n: nat, pinned: Option<string>,
                           connection: string)
    requires n <= |headers|
  {
    && (forall i | 0 <= i < n && headers[i].value != Missing ::
          Passes(headers, i, ToLower(headers[i].name), pinned, connection) ==> ToLower(headers[i].name) in out)
    && (forall key | key in out :: LastPassed(out[key], headers, n, key, pinned, connection))
  }

  /** `value` is that of the last header of this name to pass. */
  ghost predicate LastPassed(value: string, headers: seq<Header>, n: nat, key: string, pinned: Option<string>,
                             connection: string)
    requires n <= |headers|
  {
    exists i | 0 <= i < n ::
      && Passes(headers, i, key, pinned, connection) && value == ValueText(headers[i].value, ", ")
      && forall j | i < j < n :: !Passes(headers, j, key, pinned, connection)
  }

  method FilterHeaders(headers: seq<Header>, pinned: Option<string>, connection: string)
    returns (out: map<string, string>)
    ensures Filtered(out, headers, |headers|, pinned, connection)
  {
    hide Unsafe, ToLower;
    var tokens := ConnectionTokens(connection);
    out := map[];
    for n := 0 to |headers|
      invariant Filtered(out, headers, n, pinned, connection)
    {
      var lower := ToLower(headers[n].name);
      UnsafeIs(lower, pinned, connection);
      if headers[n].value != Missing && !(pinned == Some(lower) || lower in tokens || Reserved(lower)) {
        FilteredNext(out, headers, n, pinned, connection);
        out := out[lower := ValueText(headers[n].value, ", ")];
      }
    }
  }

  lemma UnsafeIs(name: string, pinned: Option<string>, connection: string)
    ensures Unsafe(name, pinned, connection) <==> pinned == Some(name) || Nominated(connection, name) || Reserved(name)
  {
  }

  lemma FilteredNext(out: map<string, string>, headers: seq<Header>, n: nat, pinned: Option<string>, connection: string)
    requires n < |headers| && Filtered(out, headers, n, pinned, connection)
    requires Passes(headers, n, ToLower(headers[n].name), pinned, connection)
    ensures Filtered(out[ToLower(headers[n].name) := ValueText(headers[n].value, ", ")], headers, n + 1, pinned,
                     connection)
  {
    hide Unsafe, ToLower;
    var lower, text := ToLower(headers[n].name), ValueText(headers[n].value, ", ");
    var more := out[lower := text];
    forall key | key in more ensures LastPassed(more[key], headers, n + 1, key, pinned, connection)
    {
      if key == lower {
        assert Passes(headers, n, key, pinned, connection);
      } else {
        var i :| 0 <= i < n && Passes(headers, i, key, pinned, connection) &&
                 out[key] == ValueText(headers[i].value, ", ")
                 && forall j | i < j < n :: !Passes(headers, j, key, pinned, connection);
        assert !Passes(headers, n, key, pinned, connection);
      }
    }
  }
}
