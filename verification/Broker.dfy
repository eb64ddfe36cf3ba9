/** One broker request: at most one pinned upstream call, and a reply that was scanned as a whole. */
module Broker {
  import opened Basics
  import opened Headers
  import opened Redaction

  const MAX_BODY: nat := 1024 * 1024

  /** Where the credential class puts the runtime value. */
  datatype Placement = Authorization | NamedHeader(headerName: string) | QueryParameter(queryName: string)

  /** A validated policy with its runtime material; URL handling and UTF-8 are the platform's. */
  datatype Config = Config(
    method_: string, path: string, origin: string, placement: Placement, secret: string, variants: seq<string>,
    pathOf: string -> string,                     // the path of a request target
    form: (string, string) -> string,             // one form-encoded query parameter
    urlIntact: string -> bool,                    // the built URL parses back to what it was built from
    encode: string -> seq<Byte>, decode: seq<Byte> -> string)
  {
    ghost predicate Valid() {
      && (placement.NamedHeader? ==> PinnableHeader(placement.headerName))
      && (forall k | 0 <= k < |variants| :: variants[k] != "")
    }

    function Pinned(): Option<string> { if placement.NamedHeader? then Some(placement.headerName) else None }

    /** The header that carries the secret, if one does. */
    function Slot(): Option<string> {
      match placement
      case Authorization => Some("authorization")
      case NamedHeader(n) => Some(n)
      case QueryParameter(_) => None
    }

    function Url(): string {
      origin + path + match placement case QueryParameter(n) => "?" + form(n, secret) case _ => ""
    }
  }

  datatype Read = Chunk(bytes: seq<Byte>) | Broken

  datatype Request = Request(
    target: string, verb: string, headers: seq<Header>, connection: HeaderValue, declared: Option<nat>,
    incoming: seq<Read>)

  /** Whatever the upstream may do. */
  datatype Upstream =
    | Refused
    | Responded(redirect: bool, status: nat, headers: map<string, string>, declaredLength: Option<nat>, hasBody: bool,
                arriving: seq<Read>)

  datatype Call = Call(url: string, verb: string, headers: map<string, string>, body: Option<seq<Byte>>)

  datatype Reply =
    | Fixed(status: nat, error: string)
    | Forwarded(upstreamStatus: nat, headers: map<string, string>, body: seq<Byte>)

  // ---- bounded bodies ----

  function Concat(rs: seq<Read>): seq<Byte> {
    if rs == [] then [] else Concat(rs[..|rs| - 1]) + if rs[|rs| - 1].Chunk? then rs[|rs| - 1].bytes else []
  }

  ghost predicate Unbroken(rs: seq<Read>) { forall k | 0 <= k < |rs| :: rs[k].Chunk? }

  datatype Bounded = Complete(bytes: seq<Byte>) | TooLarge | ReadFailed

  /** Too much is declared, or too much arrives before anything fails. */
  ghost predicate Exceeds(declared: Option<nat>, rs: seq<Read>, max: nat) {
    || (declared.Some? && declared.value > max)
    || exists k :: 0 <= k <= |rs| && Unbroken(rs[..k]) && |Concat(rs[..k])| > max
  }

  /** The reads up to the end, the first failure or the first byte too many. */
  method ReadBounded(declared: Option<nat>, rs: seq<Read>, max: nat) returns (r: Bounded)
    ensures r.Complete? <==> (declared.Some? ==> declared.value <= max) && Unbroken(rs) && |Concat(rs)| <= max
    ensures r.Complete? ==> r.bytes == Concat(rs)
    ensures r.TooLarge? <==> Exceeds(declared, rs, max)
  {
    hide Concat;
    if declared.Some? && declared.value > max { return TooLarge; }
    var bytes: seq<Byte> := [];
    assert rs[..0] == [];
    ConcatNothing();
    for k := 0 to |rs|
      invariant bytes == Concat(rs[..k]) && Unbroken(rs[..k]) && |bytes| <= max
    {
      if rs[k].Broken? {
        WithinBefore(rs, k, max);
        return ReadFailed;
      }
      ConcatPrefix(rs, k);
      bytes := bytes + rs[k].bytes;
      if |bytes| > max { return TooLarge; }
    }
    assert rs[..|rs|] == rs;
    WithinBefore(rs, |rs|, max);
    r := Complete(bytes);
  }

  /** What arrived up to `k` bounds what had arrived before. */
  lemma WithinBefore(rs: seq<Read>, k: nat, max: nat)
    requires k <= |rs| && |Concat(rs[..k])| <= max && (k < |rs| ==> rs[k].Broken?)
    ensures forall j | 0 <= j <= |rs| :: Unbroken(rs[..j]) ==> |Concat(rs[..j])| <= max
  {
    hide Concat;
    forall j | 0 <= j <= |rs| && Unbroken(rs[..j]) ensures |Concat(rs[..j])| <= max {
      ConcatGrows(rs[..k], j);
      assert rs[..k][..j] == rs[..j];
    }
  }

  lemma ConcatNothing()
    ensures Concat([]) == []
  {
  }

  lemma ConcatPrefix(rs: seq<Read>, k: nat)
    requires k < |rs|
    ensures Concat(rs[..k + 1]) == Concat(rs[..k]) + if rs[k].Chunk? then rs[k].bytes else []
    ensures |Concat(rs[..k + 1])| <= |Concat(rs)|
  {
    assert rs[..k + 1][..k] == rs[..k];
    ConcatGrows(rs, k + 1);
  }

  lemma {:induction false} ConcatGrows(rs: seq<Read>, k: nat)
    requires k <= |rs|
    ensures |Concat(rs[..k])| <= |Concat(rs)|
  {
    if k < |rs| {
      ConcatGrows(rs[..|rs| - 1], k);
      assert rs[..|rs| - 1][..k] == rs[..k];
    } else {
      assert rs[..k] == rs;
    }
  }

  // ---- scanning ----

  predicate BytesAt(body: seq<Byte>, w: seq<Byte>, i: nat) { i + |w| <= |body| && body[i..i + |w|] == w }

  ghost predicate BodySensitive(c: Config, body: seq<Byte>) {
    || (exists k :: 0 <= k < |c.variants| && exists i: nat :: BytesAt(body, c.encode(c.variants[k]), i))
    || Sensitive(c.decode(body), c.variants)
  }

  ghost predicate HeadersSensitive(c: Config, headers: map<string, string>) {
    exists name <- headers :: Sensitive(name, c.variants) || Sensitive(headers[name], c.variants)
  }

  method Includes(body: seq<Byte>, w: seq<Byte>) returns (found: bool)
    ensures found <==> exists i: nat :: BytesAt(body, w, i)
  {
    var i := 0;
    while i + |w| <= |body|
      invariant forall k: nat | k < i :: !BytesAt(body, w, k)
      decreases |body| - i
    {
      if BytesAt(body, w, i) { return true; }
      i := i + 1;
    }
    found := false;
  }

  method BufferContainsSensitiveVariant(c: Config, body: seq<Byte>) returns (found: bool)
    ensures found <==> BodySensitive(c, body)
  {
    hide Sensitive;
    for k := 0 to |c.variants|
      invariant forall j | 0 <= j < k :: !exists i: nat :: BytesAt(body, c.encode(c.variants[j]), i)
    {
      var hit := Includes(body, c.encode(c.variants[k]));
      if hit { return true; }
    }
    found := TextContainsSensitiveVariant(c.decode(body), c.variants);
  }

  method HeadersContainSensitiveVariant(c: Config, headers: map<string, string>) returns (found: bool)
    ensures found <==> HeadersSensitive(c, headers)
  {
    hide Sensitive;
    var left := headers.Keys;
    while left != {}
      invariant left <= headers.Keys
      invariant forall name | name in headers && name !in left ::
                  !Sensitive(name, c.variants) && !Sensitive(headers[name], c.variants)
      decreases left
    {
      var name :| name in left;
      found := TextContainsSensitiveVariant(name, c.variants);
      if found { return; }
      found := TextContainsSensitiveVariant(headers[name], c.variants);
      if found { return; }
      left := left - {name};
    }
    found := false;
  }

  // ---- the response ----

  const BLOCKED_NAMES: set<string> := {
    "authorization", "proxy-authorization", "www-authenticate", "set-cookie", "cookie", "connection",
    "transfer-encoding",
    "keep-alive", "proxy-authenticate", "proxy-connection", "te", "trailer", "upgrade", "content-encoding",
    "content-length"}

  predicate Blocked(name: string, pinned: Option<string>, connection: string) {
    name in BLOCKED_NAMES || Nominated(connection, name) || pinned == Some(name)
  }

  const DEFAULT_TYPE := "application/octet-stream"

  function ConnectionOf(headers: map<string,
                                     string>): string { if "connection" in headers then headers["connection"] else "" }

  /** The reply's headers: unblocked upstream headers as they came, a content type, and the true length. */
  ghost predicate Sanitized(out: map<string, string>, headers: map<string, string>, pinned: Option<string>,
                            length: string) {
    && "content-length" in out && out["content-length"] == length
    && "content-type" in out
    && out["content-type"] ==
       (if Relayed("content-type", headers, pinned) && headers["content-type"] != "" then headers["content-type"]
        else DEFAULT_TYPE)
    && (forall name :: name != "content-length" && name != "content-type" ==>
                         (name in out <==> Relayed(name, headers, pinned)))
    && (forall name :: name in out && name != "content-length" && name != "content-type" ==> out[name] == headers[name])
  }

  predicate Relayed(name: string, headers: map<string, string>, pinned: Option<string>) {
    name in headers && !Blocked(ToLower(name), pinned, ConnectionOf(headers))
  }

  /** That leaves no choice. */
  lemma SanitizedOnce(a: map<string, string>, b: map<string, string>, headers: map<string, string>,
                      pinned: Option<string>, length: string)
    requires Sanitized(a, headers, pinned, length) && Sanitized(b, headers, pinned, length)
    ensures a == b
  {
    hide Relayed;
    forall name: string ensures name in a <==> name in b {}
    assert forall name <- a :: a[name] == b[name];
  }

  method SanitizeResponseHeaders(headers: map<string, string>, pinned: Option<string>, length: string)
    returns (out: map<string, string>)
    ensures Sanitized(out, headers, pinned, length)
  {
    hide ToLower;
    var connection := ConnectionOf(headers);
    var tokens := ConnectionTokens(connection);
    out := map name | name in headers
                      && !(ToLower(name) in BLOCKED_NAMES || ToLower(name) in tokens ||
                           pinned == Some(ToLower(name))) :: headers[name];
    if "content-type" !in out || out["content-type"] == "" { out := out["content-type" := DEFAULT_TYPE]; }
    LengthIsBlocked();
    out := out["content-length" := length];
  }

  lemma LengthIsBlocked()
    ensures ToLower("content-length") == "content-length" && "content-length" in BLOCKED_NAMES
  {
    assert ToLower("content-length") == "content-length";
  }

  // ---- the handler ----

  predicate PlainTarget(target: string) {
    && target != "" && target[0] == '/' && (|target| > 1 ==> target[1] != '/')
    && forall i | 0 <= i < |target| :: target[i] != '?' && target[i] != '#'
  }

  /** One slash in front, not two, and neither query nor fragment. */
  lemma PlainTargetIs(target: string)
    ensures PlainTarget(target) <==>
            '?' !in target && '#' !in target && exists rest :: target == "/" + rest && !("/" <= rest)
  {
    if target != "" && target[0] == '/' { assert target == "/" + target[1..]; }
    if rest :| target == "/" + rest && !("/" <= rest) {
      assert target[1..] == rest && (rest != "" ==> rest[..1] == [rest[0]] && rest[0] == target[1]);
    }
  }

  predicate Admitted(c: Config, q: Request) {
    PlainTarget(q.target) && q.verb == c.method_ && c.pathOf(q.target) == c.path
  }

  /** The fixed error for a request that gets no upstream call. */
  ghost function Refusal(c: Config, q: Request): Reply {
    if !PlainTarget(q.target) then Fixed(400, "invalid_request_target")
    else if !Admitted(c, q) then Fixed(404, "not_found")
    else if (c.placement.QueryParameter? ==> c.urlIntact(c.Url())) && Oversized(q) then Fixed(413, "payload_too_large")
    else FAILED
  }

  ghost predicate Oversized(q: Request) {
    q.verb != "GET" && q.verb != "HEAD" && Exceeds(q.declared, q.incoming, MAX_BODY)
  }

  /** Nothing on the caller's side stands in the way of the call. */
  ghost predicate Deliverable(c: Config, q: Request) {
    && Admitted(c, q) && (c.placement.QueryParameter? ==> c.urlIntact(c.Url()))
    && (q.verb == "GET" || q.verb == "HEAD"
        || ((q.declared.Some? ==> q.declared.value <= MAX_BODY) && Unbroken(q.incoming) &&
            |Concat(q.incoming)| <= MAX_BODY))
  }

  /** The caller's header `i` has a value and, in lower case, this name. */
  predicate Carries(q: Request, i: nat, key: string)
    requires i < |q.headers|
  {
    q.headers[i].value != Missing && ToLower(q.headers[i].name) == key
  }

  /** The last header of this name has this value, or these joined by a comma. */
  ghost predicate LastValue(q: Request, key: string, value: string) {
    exists i | 0 <= i < |q.headers| :: Carries(q, i, key) && value == ValueText(q.headers[i].value, ", ")
                                       && forall j | i < j < |q.headers| :: !Carries(q, j, key)
  }

  /** A caller may set a header of this name: not reserved, not nominated by Connection, not the secret's own. */
  ghost predicate Callers(c: Config, q: Request, key: string) {
    !Reserved(key) && !Nominated(ValueText(q.connection, ","), key) && c.Slot() != Some(key)
  }

  /** The outbound headers: the secret in its slot, and besides exactly the caller's own, each with its last value. */
  ghost predicate Outbound(c: Config, q: Request, out: map<string, string>) {
    && (c.Slot().Some? ==> c.Slot().value in out && out[c.Slot().value] == c.secret)
    && (forall i | 0 <= i < |q.headers| && q.headers[i].value != Missing ::
          Callers(c, q, ToLower(q.headers[i].name)) ==> ToLower(q.headers[i].name) in out)
    && (forall key | key in out && c.Slot() != Some(key) :: Callers(c, q, key) && LastValue(q, key, out[key]))
  }

  /** That leaves no choice. */
  lemma OutboundOnce(c: Config, q: Request, a: map<string, string>, b: map<string, string>)
    requires Outbound(c, q, a) && Outbound(c, q, b)
    ensures a == b
  {
    hide Callers;
    assert a.Keys <= b.Keys by { OutboundKeys(c, q, a, b); }
    assert b.Keys <= a.Keys by { OutboundKeys(c, q, b, a); }
    assert a.Keys == b.Keys;
    forall key | key in a ensures a[key] == b[key] {
      if c.Slot() != Some(key) { LastValueOnce(q, key, a[key], b[key]); }
    }
  }

  lemma OutboundKeys(c: Config, q: Request, a: map<string, string>, b: map<string, string>)
    requires Outbound(c, q, a) && Outbound(c, q, b)
    ensures a.Keys <= b.Keys
  {
    hide Callers, ToLower;
    forall key | key in a ensures key in b {
      if c.Slot() != Some(key) {
        assert LastValue(q, key, a[key]);
        var i :| 0 <= i < |q.headers| && Carries(q, i, key);
        assert ToLower(q.headers[i].name) == key;
      }
    }
  }

  lemma LastValueOnce(q: Request, key: string, x: string, y: string)
    requires LastValue(q, key, x) && LastValue(q, key, y)
    ensures x == y
  {
    hide Carries;
  }

  /** The body that goes out: what the caller sent in all, unless that is nothing or the method has none. */
  function OutboundBody(q: Request): Option<seq<Byte>> {
    if q.verb == "GET" || q.verb == "HEAD" || Concat(q.incoming) == [] then None else Some(Concat(q.incoming))
  }

  /** The call the policy pins. */
  ghost predicate PinnedCall(c: Config, q: Request, call: Call) {
    && Admitted(c, q) && call.verb == c.method_ && Outbound(c, q, call.headers)
    && call.url == c.origin + c.path + (if c.placement.QueryParameter?
                                        then "?" + c.form(c.placement.queryName, c.secret) else "")
    && call.body == OutboundBody(q) && (call.body.Some? ==> |call.body.value| <= MAX_BODY)
  }

  function WholeBody(u: Upstream): seq<Byte> { if u.Responded? && u.hasBody then Concat(u.arriving) else [] }

  /** An answer that may be passed on: no redirect, complete, bounded, and free of the secret as a whole. */
  ghost predicate Sound(c: Config, u: Upstream) {
    && u.Responded? && !u.redirect && !(300 <= u.status < 400)
    && (u.declaredLength.Some? ==> u.declaredLength.value <= MAX_BODY) && (u.hasBody ==> Unbroken(u.arriving))
    && |WholeBody(u)| <= MAX_BODY && !HeadersSensitive(c, u.headers) && !BodySensitive(c, WholeBody(u))
  }

  /** A forwarded reply: a sound answer with its whole body and sanitized headers. */
  ghost predicate ScannedReply(c: Config, u: Upstream, r: Reply, decimal: nat -> string) {
    && r.Forwarded? && Sound(c, u) && r.upstreamStatus == u.status && r.body == WholeBody(u)
    && Sanitized(r.headers, u.headers, c.Pinned(), decimal(|r.body|))
  }

  const FAILED := Fixed(502, "upstream_failed")

  /** The filtered headers are the caller's, whatever then becomes of the secret's own. */
  lemma FilteredOutbound(c: Config, q: Request, filtered: map<string, string>)
    requires c.Valid() && Filtered(filtered, q.headers, |q.headers|, c.Pinned(), ValueText(q.connection, ","))
    ensures Outbound(c, q, if c.Slot().Some? then filtered[c.Slot().value := c.secret] else filtered)
  {
    hide Reserved, Nominated, ToLower, PinnableHeader, LastValue, Filtered;
    var out := if c.Slot().Some? then filtered[c.Slot().value := c.secret] else filtered;
    forall i | 0 <= i < |q.headers| && q.headers[i].value != Missing && Callers(c, q, ToLower(q.headers[i].name))
      ensures ToLower(q.headers[i].name) in out
    {
      FilteredHas(c, q, filtered, i);
    }
    forall key | key in out && c.Slot() != Some(key) ensures Callers(c, q, key) && LastValue(q, key, out[key]) {
      FilteredLast(c, q, filtered, key);
    }
  }

  lemma FilteredHas(c: Config, q: Request, filtered: map<string, string>, i: nat)
    requires c.Valid() && Filtered(filtered, q.headers, |q.headers|, c.Pinned(), ValueText(q.connection, ","))
    requires i < |q.headers| && q.headers[i].value != Missing && Callers(c, q, ToLower(q.headers[i].name))
    ensures ToLower(q.headers[i].name) in filtered
  {
    hide Reserved, Nominated, ToLower, PinnableHeader;
    assert Passes(q.headers, i, ToLower(q.headers[i].name), c.Pinned(), ValueText(q.connection, ","));
  }

  lemma FilteredLast(c: Config, q: Request, filtered: map<string, string>, key: string)
    requires c.Valid() && Filtered(filtered, q.headers, |q.headers|, c.Pinned(), ValueText(q.connection, ","))
    requires key in filtered && c.Slot() != Some(key)
    ensures Callers(c, q, key) && LastValue(q, key, filtered[key])
  {
    hide Reserved, Nominated, ToLower, PinnableHeader;
    var connection := ValueText(q.connection, ",");
    assert LastPassed(filtered[key], q.headers, |q.headers|, key, c.Pinned(), connection);
    var i :| 0 <= i < |q.headers| && Passes(q.headers, i, key, c.Pinned(), connection)
             && filtered[key] == ValueText(q.headers[i].value, ", ")
             && forall j | i < j < |q.headers| :: !Passes(q.headers, j, key, c.Pinned(), connection);
    assert Carries(q, i, key);
    assert forall j | i < j < |q.headers| :: Carries(q, j, key) ==> Passes(q.headers, j, key, c.Pinned(), connection);
  }

  class Exchange {
    var calls: seq<Call>
    var replies: seq<Reply>

    constructor ()
      ensures calls == [] && replies == []
    {
      calls, replies := [], [];
    }

    method Respond(r: Reply)
      modifies this`replies
      ensures replies == old(replies) + [r]
    {
      replies := replies + [r];
    }

    method OutboundHeaders(c: Config, q: Request) returns (out: map<string, string>)
      requires c.Valid()
      ensures Outbound(c, q, out)
    {
      hide Reserved, Nominated, ToLower, PinnableHeader, Filtered, Outbound;
      out := FilterHeaders(q.headers, c.Pinned(), ValueText(q.connection, ","));
      FilteredOutbound(c, q, out);
      match c.placement {
        case Authorization => out := out["authorization" := c.secret];
        case NamedHeader(name) => out := out[name := c.secret];
        case QueryParameter(_) =>
      }
    }

    /** The request body, unless the method has none. */
    method RequestBody(q: Request) returns (r: Bounded)
      ensures r.Complete? <==> q.verb == "GET" || q.verb == "HEAD"
                               || ((q.declared.Some? ==> q.declared.value <= MAX_BODY) && Unbroken(q.incoming) &&
                                   |Concat(q.incoming)| <= MAX_BODY)
      ensures r.Complete? && q.verb != "GET" && q.verb != "HEAD" ==> r.bytes == Concat(q.incoming)
      ensures r.TooLarge? <==> Oversized(q)
      ensures r.Complete? && (q.verb == "GET" || q.verb == "HEAD") ==> r.bytes == []
    {
      if q.verb == "GET" || q.verb == "HEAD" { return Complete([]); }
      r := ReadBounded(q.declared, q.incoming, MAX_BODY);
    }

    /** From the upstream's answer to the reply. */
    method Relay(c: Config, u: Upstream, decimal: nat -> string) returns (r: Reply)
      ensures if Sound(c, u) then ScannedReply(c, u, r, decimal) else r == FAILED
    {
      hide BodySensitive, HeadersSensitive, Sanitized, Concat, Unbroken;
      if u.Refused? || u.redirect || 300 <= u.status < 400 { return FAILED; }
      var bad := HeadersContainSensitiveVariant(c, u.headers);
      if bad { return FAILED; }
      if !u.hasBody && u.declaredLength.Some? && u.declaredLength.value > MAX_BODY { return FAILED; }
      var body: seq<Byte> := [];
      if u.hasBody {
        var b := ReadBounded(u.declaredLength, u.arriving, MAX_BODY);
        if !b.Complete? { return FAILED; }
        body := b.bytes;
      }
      bad := BufferContainsSensitiveVariant(c, body);
      if bad { return FAILED; }
      var headers := SanitizeResponseHeaders(u.headers, c.Pinned(), decimal(|body|));
      r := Forwarded(u.status, headers, body);
    }

    /**
      For every request and every upstream: exactly one reply, at most one call, and that call pinned by the policy; a
      reply is one of the fixed errors or a complete bounded body that passed the scan.
     */
    method Handle(c: Config, q: Request, u: Upstream, decimal: nat -> string)
      requires c.Valid()
      modifies this
      ensures |replies| == |old(replies)| + 1 && replies[..|old(replies)|] == old(replies)
      ensures || calls == old(calls)
              || (&& |calls| == |old(calls)| + 1 && calls[..|old(calls)|] == old(calls)
                  && PinnedCall(c, q, calls[|old(calls)|]))
      ensures Deliverable(c, q) ==>
                var r := replies[|old(replies)|];
                |calls| == |old(calls)| + 1 && if Sound(c, u) then ScannedReply(c, u, r, decimal) else r == FAILED
      ensures !Deliverable(c, q) ==> calls == old(calls) && replies[|old(replies)|] == Refusal(c, q)
    {
      hide Outbound, ScannedReply, Concat, Sound, Oversized;
      var r;
      if !PlainTarget(q.target) {
        r := Fixed(400, "invalid_request_target");
      } else if q.verb != c.method_ || c.pathOf(q.target) != c.path {
        r := Fixed(404, "not_found");
      } else {
        r := Forward(c, q, u, decimal);
      }
      Respond(r);
    }

    method Forward(c: Config, q: Request, u: Upstream, decimal: nat -> string) returns (r: Reply)
      requires c.Valid() && Admitted(c, q)
      modifies this`calls
      ensures calls == old(calls) || exists call :: calls == old(calls) + [call] && PinnedCall(c, q, call)
      ensures Deliverable(c, q) ==>
                |calls| == |old(calls)| + 1 && if Sound(c, u) then ScannedReply(c, u, r, decimal) else r == FAILED
      ensures !Deliverable(c, q) ==>
                calls == old(calls) && r == if (c.placement.QueryParameter? ==> c.urlIntact(c.Url())) &&
                                               Oversized(q) then Fixed(413, "payload_too_large") else FAILED
    {
      hide Outbound, Concat, Sound, Oversized;
      var headers := OutboundHeaders(c, q);
      if c.placement.QueryParameter? && !c.urlIntact(c.Url()) { return FAILED; }
      var body := RequestBody(q);
      if body.TooLarge? { return Fixed(413, "payload_too_large"); }
      if body.ReadFailed? { return FAILED; }
      var call := Call(c.Url(), c.method_, headers,
                       if body.bytes == [] || c.method_ == "GET" || c.method_ == "HEAD" then None
                       else Some(body.bytes));
      calls := calls + [call];
      assert PinnedCall(c, q, call);
      r := Relay(c, u, decimal);
    }
  }

  /** Only the joined bytes matter, not how the upstream cut them up. */
  method ChunkingIrrelevant(c: Config, u: Upstream, v: Upstream, decimal: nat -> string) returns (a: Reply, b: Reply)
    requires && u.Responded?
             && v.Responded?
             && v == u.(arriving := v.arriving)
             && Unbroken(u.arriving)
             && Unbroken(v.arriving)
             && Concat(u.arriving) == Concat(v.arriving)
    ensures a == b
  {
    hide BodySensitive, HeadersSensitive, Sanitized, Concat, Unbroken;
    var x := new Exchange();
    a := x.Relay(c, u, decimal);
    b := x.Relay(c, v, decimal);
    if a.Forwarded? && b.Forwarded? { SanitizedOnce(a.headers, b.headers, u.headers, c.Pinned(), decimal(|a.body|)); }
  }
}
