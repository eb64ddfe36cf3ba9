/** Ownership of the hidden directory account: prepare, create, verify, delete. */
module AccountOwnership {
  import opened Basics
  import opened Records
  import opened Discipline
  import opened HostModel

  predicate UpperHex(c: char) { '0' <= c <= '9' || 'A' <= c <= 'F' }

  /** An upper-case version 4 UUID with the standard variant. */
  predicate CanonicalUuid(s: string) {
    && |s| == 36
    && (forall i | 0 <= i < 36 :: if i in {8, 13, 18, 23} then s[i] == '-' else UpperHex(s[i]))
    && s[14] == '4' && s[19] in {'8', '9', 'A', 'B'}
  }

  predicate Uppers(s: string, n: nat) { |s| == n && forall i | 0 <= i < n :: UpperHex(s[i]) }

  /** Five groups of such digits, the version before the third and one of four variants before the fourth. */
  predicate Grouped(s: string, a: string, b: string, c: string, d: char, e: string, f: string) {
    && Uppers(a, 8) && Uppers(b, 4) && Uppers(c, 3) && d in {'8', '9', 'A', 'B'} && Uppers(e, 3) && Uppers(f, 12)
    && s == a + "-" + b + "-4" + c + "-" + [d] + e + "-" + f
  }

  lemma UuidForm(s: string)
    ensures CanonicalUuid(s) <==> exists a, b, c, d, e, f :: Grouped(s, a, b, c, d, e, f)
  {
    hide Grouped, CanonicalUuid;
    if CanonicalUuid(s) { UuidGroups(s); }
    if a, b, c, d, e, f :| Grouped(s, a, b, c, d, e, f) { GroupedUuid(s, a, b, c, d, e, f); }
  }

  lemma UuidGroups(s: string)
    requires CanonicalUuid(s)
    ensures |s| == 36 && Grouped(s, s[..8], s[9..13], s[15..18], s[19], s[20..23], s[24..])
  {
    hide UpperHex;
  }

  lemma GroupedUuid(s: string, a: string, b: string, c: string, d: char, e: string, f: string)
    requires Grouped(s, a, b, c, d, e, f)
    ensures CanonicalUuid(s)
  {
    assert UpperHex('4') && UpperHex(d);
    hide UpperHex;
    forall i | 0 <= i < 36 ensures if i in {8, 13, 18, 23} then s[i] == '-' else UpperHex(s[i]) {
      assert s[i] == if i < 8 then a[i] else if i == 8 then '-' else if i < 13 then b[i - 9] else if i == 13 then '-'
                     else if i == 14 then '4' else if i < 18 then c[i - 15] else if i == 18 then '-'
                     else if i == 19 then d else if i < 23 then e[i - 20] else if i == 23 then '-' else f[i - 24];
    }
  }

  predicate ValidRecord(r: AccountRecord) {
    && r.name == ACCOUNT_NAME
    && 0 < r.uniqueId < 500
    && CanonicalUuid(r.generatedUid)
    && r.shell in {"/usr/bin/false", "/usr/bin/nologin"}
    && r.home == "/var/empty"
  }

  /** Only number, UUID and shell vary, and the shell between two. */
  lemma ValidRecordIs(r: AccountRecord)
    ensures ValidRecord(r) <==>
            && 1 <= r.uniqueId <= 499 && CanonicalUuid(r.generatedUid)
            && (r == AccountRecord("_bwagentbridge", r.uniqueId, r.generatedUid, "/usr/bin/false", "/var/empty") ||
                r == AccountRecord("_bwagentbridge", r.uniqueId, r.generatedUid, "/usr/bin/nologin", "/var/empty"))
  {
    hide CanonicalUuid;
  }

  lemma FixedName(r: AccountRecord)
    requires ValidRecord(r)
    ensures r.name == ACCOUNT_NAME
  {
  }

  /** The three names of `r` are free. */
  ghost predicate Free(w: World, o: Rest, r: AccountRecord) {
    r.name !in w.accounts && !UidTaken(w, o, r.uniqueId) && !GuidTaken(w, o, r.generatedUid)
  }

  /** No account but the one under its name uses the number or UUID of `r`. */
  ghost predicate Unshared(w: World, o: Rest, r: AccountRecord) {
    && (forall n <- w.accounts :: n != r.name ==>
                                    w.accounts[n].uid != Some(r.uniqueId) && w.accounts[n].guid != Some(r.generatedUid))
    && !HasUid(o.accounts, r.uniqueId) && !HasGuid(o.accounts, r.generatedUid)
  }

  /** Once its own slot is empty an unshared record is free. */
  lemma UnsharedGone(w: World, o: Rest, r: AccountRecord)
    requires Unshared(w, o, r) && r.name !in w.accounts
    ensures Free(w, o, r)
  {
  }

  lemma UnsharedUpToSlot(w: World, v: World, o: Rest, r: AccountRecord)
    requires Unshared(w, o, r) && AccountSlotOnly(w, v, r.name)
    ensures Unshared(v, o, r)
  {
    assert v.accounts - {r.name} == w.accounts - {r.name};
    forall n <- v.accounts | n != r.name ensures n in w.accounts && v.accounts[n] == w.accounts[n] {
      assert n in v.accounts - {r.name} && (v.accounts - {r.name})[n] == (w.accounts - {r.name})[n];
    }
  }

  /** A log after one look for each name of `r`. */
  function Probed(l: Log, r: AccountRecord, n: Probe, u: Probe, g: Probe): Log {
    Then(Then(Then(l, NameProbe(r.name, n)), UidProbe(r.uniqueId, u)), GuidProbe(r.generatedUid, g))
  }

  /** After `past` the record was read back as expected, and its deletion was answered OK, or otherwise. */
  predicate DeleteAnswered(past: Log, l: Log, r: AccountRecord, ok: bool) {
    && l.Then? && l.last.DeleteAccount? && l.last.account == r && (l.last.answer == Ok <==> ok)
    && l.past == Then(past, ReadAccount(r.name, Some(r)))
  }

  /** All three names were looked for, and all were absent, or otherwise. */
  predicate LookedFor(past: Log, l: Log, r: AccountRecord, gone: bool) {
    exists n, u, g :: l == Probed(past, r, n, u, g) && (gone <==> {n, u, g} == {Absent})
  }

  /** The deletion was answered OK, and then all three names were looked for. */
  predicate DeletedAndSeen(past: Log, l: Log, r: AccountRecord, gone: bool) {
    && l.Then? && l.past.Then? && l.past.past.Then? && DeleteAnswered(past, l.past.past.past, r, true)
    && LookedFor(l.past.past.past, l, r, gone)
  }

  datatype AccountCall = DoPrepare(candidate: AccountRecord) | DoCreate | DoVerify | DoDelete

  class OwnedAccount {
    var identity: AccountRecord
    var prepared: bool
    var created: bool
    var verified: bool

    constructor ()
      ensures identity == NO_ACCOUNT && !prepared && !created && !verified
    {
      identity, prepared, created, verified := NO_ACCOUNT, false, false, false;
    }

    ghost predicate Valid(h: Host) reads this, h {
      && (verified ==> created) && (created ==> prepared)
      && (prepared ==> ValidRecord(identity) && identity in h.mon.preparedAccounts)
      && (verified ==> identity in h.mon.verifiedAccounts)
    }

    /** Probe the three names, all of them in any case. */
    method ProbeAll(h: Host, r: AccountRecord) returns (n: Probe, u: Probe, g: Probe)
      requires h.Valid() && r.name == ACCOUNT_NAME
      modifies h`world, h`rest, h`still, h`log, h`mon
      ensures h.Looked() && h.mon == old(h.mon)
      ensures h.log == Probed(old(h.log), r, n, u, g) && LookedFor(old(h.log), h.log, r, n == u == g == Absent)
      ensures n == u == g == Absent ==> AccountFree(h.log, r)
      ensures h.exclusive && h.truthful && n == Absent ==> r.name !in h.world.accounts
      ensures h.quiet && h.truthful && n == u == g == Absent ==> Free(h.world, h.rest, r)
      ensures h.quiet && h.truthful && h.obligingDirectory && Free(h.world, h.rest, r) ==> n == u == g == Absent
    {
      hide Step, Watch, WellFormed, Host.Separate, UidTaken, GuidTaken;
      n := h.ProbeName(r.name);
      u := h.ProbeUniqueId(r.uniqueId);
      g := h.ProbeGeneratedUid(r.generatedUid);
    }

    /** Take a candidate only while its name, number and UUID are all free. */
    method Prepare(h: Host, candidate: AccountRecord) returns (r: Answer)
      requires h.Valid() && Valid(h)
      modifies this`identity, this`prepared, h`world, h`rest, h`still, h`log, h`mon
      ensures h.Looked() && Valid(h)
      ensures !ValidRecord(candidate) || old(prepared) ==> r == Error && h.log == old(h.log) && h.world == old(h.world)
      ensures r == Ok ==> && prepared && identity == candidate && !created && !verified
                          && h.mon == old(h.mon).(preparedAccounts := old(h.mon).preparedAccounts + {candidate})
                          && h.log.Then?
                          && h.log.last == AccountPrepared(candidate)
                          && AccountFree(h.log.past, candidate)
      ensures r != Ok ==> unchanged(this) && h.mon == old(h.mon)
      ensures (r != Ok && ValidRecord(candidate) && !old(prepared)) ==>
                exists n, u, g :: && h.log == Probed(old(h.log), candidate, n, u, g)
                                  && (r == if ProbeError in {n, u, g} then Error else NoEffect) && {n, u, g} != {Absent}
      ensures h.exclusive && h.truthful && r == Ok ==> candidate.name !in h.world.accounts
      ensures h.quiet && h.truthful && r == Ok ==> Free(h.world, h.rest, candidate)
      ensures h.quiet && h.truthful && h.obligingDirectory && ValidRecord(candidate) && !old(prepared) &&
              Free(h.world, h.rest, candidate) ==>
                r == Ok
    {
      hide ValidRecord, Step, Watch, WellFormed, Host.Separate, Free, Probed, AccountFree, LookedFor;
      if !ValidRecord(candidate) || prepared || created || verified { return Error; }
      FixedName(candidate);
      var n, u, g := ProbeAll(h, candidate);
      if n == ProbeError || u == ProbeError || g == ProbeError { return Error; }
      if n != Absent || u != Absent || g != Absent { return NoEffect; }
      StepPrepared(h.mon, h.log, candidate);
      h.Note(AccountPrepared(candidate));
      identity, prepared := candidate, true;
      r := Ok;
    }

    /** Read the record back and look for all three names, stopping at the first surprise. */
    method Confirm(h: Host) returns (ok: bool)
      requires h.Valid() && ValidRecord(identity)
      modifies h`world, h`rest, h`still, h`log, h`mon
      ensures h.Looked() && h.mon == old(h.mon)
      ensures ok ==> h.log == ReadBack(old(h.log), identity)
      ensures h.exclusive && h.truthful && ok ==> h.Holds(identity)
      ensures h.exclusive && h.truthful && h.obligingDirectory && h.Holds(identity) ==> ok
    {
      hide ValidRecord, Step, Watch, WellFormed, Host.Separate;
      FixedName(identity);
      var seen := h.ReadRecord(identity.name);
      if seen.None? || !ValidRecord(seen.value) || seen.value != identity { return false; }
      var n := h.ProbeName(identity.name);
      if n != Present { return false; }
      var u := h.ProbeUniqueId(identity.uniqueId);
      if u != Present { return false; }
      var g := h.ProbeGeneratedUid(identity.generatedUid);
      ok := g == Present;
    }

    /** A create becomes ownership only when the record reads back exactly and all three names are present. */
    method Create(h: Host) returns (r: Answer, ghost a: Answer)
      requires h.Valid() && Valid(h)
      modifies this`created, this`verified, h`world, h`rest, h`still, h`log, h`mon
      ensures h.Valid() && Valid(h) && h.world.held == old(h.world.held)
      ensures !old(prepared) || old(created) ==>
                r == Error && unchanged(this) && h.world == old(h.world) && h.log == old(h.log) && h.mon == old(h.mon)
      ensures old(prepared) && !old(created) ==>
                && (created <==> a == Ok)
                && (a != Ok ==> r == a && h.log == Then(old(h.log), CreateAccount(identity, a)))
                && (a == Ok ==> r == Ok || r == Ambiguous)
                && var taken := if r == Ok then {identity} else {};
                   h.mon == Placed(old(h.mon).(accountOpen := old(h.mon).accountOpen || a == Ok,
                                               verifiedAccounts := old(h.mon).verifiedAccounts + taken), 0)
      ensures verified <==> old(verified) || r == Ok
      ensures r == Ok ==> h.log == Then(ReadBack(Then(old(h.log), CreateAccount(identity, Ok)), identity),
                                        AccountVerified(identity))
      ensures h.exclusive ==> AccountSlotOnly(old(h.world), h.world, ACCOUNT_NAME)
      ensures h.exclusive && h.truthful && r == Ok ==> h.Holds(identity)
      ensures h.exclusive && h.truthful && h.obligingDirectory && old(prepared) && !old(created) ==> r == Ok
      ensures h.balkingDirectory && old(prepared) && !old(created) ==> a == Ambiguous && h.Holds(identity)
    {
      hide ValidRecord, Step, Watch, WellFormed, Host.Separate;
      a := Error;
      if !prepared || created || !ValidRecord(identity) { r := Error; return; }
      FixedName(identity);
      var answer := h.CreateRecord(identity);
      a := answer;
      StepCreated(old(h.mon), old(h.log), identity, answer);
      if answer != Ok { r := answer; return; }
      created := true;
      var ok := Confirm(h);
      if !ok { r := Ambiguous; return; }
      StepVerified(h.mon, h.log, identity);
      h.Note(AccountVerified(identity));
      verified := true;
      r := Ok;
    }

    method Verify(h: Host) returns (r: Answer)
      requires h.Valid() && Valid(h)
      modifies h`world, h`rest, h`still, h`log, h`mon
      ensures h.Looked() && Valid(h) && h.mon == old(h.mon)
      ensures r == Error <==> !verified
      ensures !verified ==> h.log == old(h.log) && h.world == old(h.world)
      ensures verified ==> h.log.Then? && h.log.past == old(h.log) && h.log.last.ReadAccount?
      ensures r == Ok <==> verified && AccountRead(h.log, identity)
      ensures h.truthful && r == Ok ==> h.Holds(identity)
      ensures h.truthful && h.obligingDirectory && verified && h.Holds(identity) ==> r == Ok
    {
      hide ValidRecord, Step, Watch, WellFormed, Host.Separate;
      if !prepared || !created || !verified || !ValidRecord(identity) { return Error; }
      FixedName(identity);
      var seen := h.ReadRecord(identity.name);
      r := if seen.Some? && ValidRecord(seen.value) && seen.value == identity then Ok else Ambiguous;
    }

    /** Delete only what was created and verified, after reading the same record again. */
    method Delete(h: Host) returns (r: Answer)
      requires h.Valid() && Valid(h)
      modifies this, h`world, h`rest, h`still, h`log, h`mon
      ensures h.Valid() && Valid(h) && h.world.held == old(h.world.held)
      ensures !old(verified) ==>
                && r == NoEffect
                && unchanged(this)
                && h.world == old(h.world)
                && h.log == old(h.log)
                && h.mon == old(h.mon)
      ensures old(verified) ==>
                && r in {Ok, Ambiguous}
                && (r == Ok ==> h.mon == Placed(old(h.mon), 10).(accountOpen := false))
                // a failed answer is not looked into, and a name still there is not forgotten
                && (r == Ambiguous ==>
                      || (h.mon == Placed(old(h.mon), 10) && DeleteAnswered(old(h.log), h.log, identity, false))
                      || (h.mon == Placed(old(h.mon), 10) && DeletedAndSeen(old(h.log), h.log, identity, false))
                      || (h.mon == old(h.mon) && h.log.Then? && h.log.past == old(h.log) &&
                          !AccountRead(h.log, identity)))
      ensures r == Ok ==> && !prepared && !created && !verified && identity == NO_ACCOUNT
                          && h.log.Then?
                          && h.log.last == AccountForgotten(old(identity))
                          && AccountFree(h.log.past, old(identity))
                          && DeletedAndSeen(old(h.log), h.log.past, old(identity), true)
      ensures r != Ok ==> unchanged(this)
      ensures h.exclusive ==> AccountSlotOnly(old(h.world), h.world, ACCOUNT_NAME)
      ensures h.exclusive && h.truthful && r == Ok ==> ACCOUNT_NAME !in h.world.accounts
      ensures h.quiet && h.truthful && r == Ok ==> Free(h.world, h.rest, old(identity))
      ensures h.exclusive && h.truthful && h.obligingDirectory && old(verified) && old(h.Holds(identity)) ==>
                ACCOUNT_NAME !in h.world.accounts
      ensures h.quiet && h.truthful && h.obligingDirectory && old(verified) && old(h.Holds(identity)) &&
              Unshared(old(h.world), old(h.rest), old(identity)) ==>
                r == Ok
    {
      hide ValidRecord, Step, Watch, WellFormed, Host.Separate, Free, Unshared, DeleteAnswered, LookedFor,
        DeletedAndSeen, Placed, AccountFree;
      if !prepared || !created || !verified { return NoEffect; }
      FixedName(identity);
      r := Verify(h);
      if r != Ok { return Ambiguous; }
      ghost var l := h.log;
      var a := DeleteRead(h);
      DeleteFollows(old(h.log), l, h.log, identity, a == Ok);
      if a != Ok { return Ambiguous; }
      if h.quiet && ACCOUNT_NAME !in h.world.accounts && Unshared(old(h.world), old(h.rest), identity) {
        UnsharedUpToSlot(old(h.world), h.world, h.rest, identity);
        UnsharedGone(h.world, h.rest, identity);
      }
      ghost var k, j := h.log, identity;
      var gone := ForgetIfGone(h);
      SeenAfterDelete(old(h.log), k, if gone then h.log.past else h.log, j, gone);
      r := if gone then Ok else Ambiguous;
    }

    /** All three names are gone: forget the account. */
    method ForgetIfGone(h: Host) returns (gone: bool)
      requires h.Valid() && Valid(h) && identity.name == ACCOUNT_NAME
      modifies this, h`world, h`rest, h`still, h`log, h`mon
      ensures h.Looked() && Valid(h)
      ensures gone ==> && !prepared && !created && !verified && identity == NO_ACCOUNT
                       && h.mon == old(h.mon).(accountOpen := false)
                       && h.log.Then?
                       && h.log.last == AccountForgotten(old(identity))
                       && AccountFree(h.log.past, old(identity))
                       && LookedFor(old(h.log), h.log.past, old(identity), true)
      ensures !gone ==> unchanged(this) && h.mon == old(h.mon) && LookedFor(old(h.log), h.log, identity, false)
      ensures h.exclusive && h.truthful && gone ==> ACCOUNT_NAME !in h.world.accounts
      ensures h.quiet && h.truthful && gone ==> Free(h.world, h.rest, old(identity))
      ensures h.quiet && h.truthful && h.obligingDirectory && Free(h.world, h.rest, old(identity)) ==> gone
    {
      hide ValidRecord, Step, Watch, WellFormed, Host.Separate, Free, Probed, AccountFree, LookedFor;
      var n, u, g := ProbeAll(h, identity);
      if n != Absent || u != Absent || g != Absent { return false; }
      StepAccountForgotten(h.mon, h.log, identity);
      h.Note(AccountForgotten(identity));
      created, verified, prepared := false, false, false;
      identity := NO_ACCOUNT;
      gone := true;
    }

    /** The record was read and found equal just now: a read that does not lie found it in the slot. */
    method DeleteRead(h: Host) returns (a: Answer)
      requires h.Valid() && Valid(h) && verified && AccountRead(h.log, identity) && (h.truthful ==> h.Holds(identity))
      modifies h`world, h`rest, h`still, h`log, h`mon
      ensures h.Valid() && Valid(h) && h.world.held == old(h.world.held)
      ensures h.mon == Placed(old(h.mon), 10)
      ensures h.log.Then? && h.log.past == old(h.log)
      ensures h.log.last.DeleteAccount? && h.log.last.account == identity && h.log.last.answer == a
      ensures h.exclusive ==> AccountSlotOnly(old(h.world), h.world, ACCOUNT_NAME)
      ensures h.exclusive && h.truthful && h.obligingDirectory ==> a == Ok && ACCOUNT_NAME !in h.world.accounts
    {
      hide ValidRecord, Step, Watch, WellFormed, Host.Separate;
      FixedName(identity);
      ghost var hit, sure;
      a, hit, sure := h.DeleteRecord(identity);
      StepDeleted(old(h.mon), old(h.log), identity, a, hit, sure);
    }
  }

  lemma DeleteFollows(past: Log, l: Log, m: Log, r: AccountRecord, ok: bool)
    requires l.Then? && l.past == past && AccountRead(l, r) && m.Then? && m.past == l
    requires m.last.DeleteAccount? && m.last.account == r && (m.last.answer == Ok <==> ok)
    ensures DeleteAnswered(past, m, r, ok)
  {
  }

  lemma SeenAfterDelete(past: Log, l: Log, m: Log, r: AccountRecord, gone: bool)
    requires DeleteAnswered(past, l, r, true) && LookedFor(l, m, r, gone)
    ensures DeletedAndSeen(past, m, r, gone)
  {
    hide DeleteAnswered;
  }

  method Perform(h: Host, owned: OwnedAccount, call: AccountCall) returns (r: Answer)
    requires h.Valid() && owned.Valid(h)
    modifies owned, h`world, h`rest, h`still, h`log, h`mon
    ensures h.Valid() && owned.Valid(h) && h.world.held == old(h.world.held)
    ensures old(h.mon.safe) ==> h.mon.safe
    ensures h.exclusive ==> h.world.accounts - {ACCOUNT_NAME} == old(h.world.accounts) - {ACCOUNT_NAME}
    ensures old(owned.created && !owned.verified) ==> unchanged(owned) && h.log == old(h.log) && h.world == old(h.world)
  {
    match call {
      case DoPrepare(c) => r := owned.Prepare(h, c);
      case DoCreate => ghost var a; r, a := owned.Create(h);
      case DoVerify => r := owned.Verify(h);
      case DoDelete => r := owned.Delete(h);
    }
  }

  /** Any sequence of calls on a fresh record, with any answers, keeps every licence. */
  method AnyRun(h: Host, script: seq<AccountCall>) returns (owned: OwnedAccount)
    requires h.Valid() && Safe(h.log)
    modifies h`world, h`rest, h`still, h`log, h`mon
    ensures h.Valid() && fresh(owned) && owned.Valid(h) && Safe(h.log)
    ensures h.world.held == old(h.world.held)
    ensures h.exclusive ==> h.world.accounts - {ACCOUNT_NAME} == old(h.world.accounts) - {ACCOUNT_NAME}
  {
    hide Safe, ValidRecord;
    owned := new OwnedAccount();
    WatchSafe(h.log);
    for i := 0 to |script|
      invariant h.Valid() && owned.Valid(h) && h.mon.safe && h.world.held == old(h.world.held)
      invariant h.exclusive ==> h.world.accounts - {ACCOUNT_NAME} == old(h.world.accounts) - {ACCOUNT_NAME}
    {
      var r := Perform(h, owned, script[i]);
    }
    WatchSafe(h.log);
  }

  /** Created but not verified is absorbing: no later sequence of calls reaches the directory at all. */
  method AbsorbingRun(h: Host, owned: OwnedAccount, script: seq<AccountCall>)
    requires h.Valid() && owned.Valid(h) && owned.created && !owned.verified
    modifies owned, h`world, h`rest, h`still, h`log, h`mon
    ensures h.log == old(h.log) && h.world == old(h.world)
    ensures owned.created && !owned.verified && owned.identity == old(owned.identity)
  {
    hide ValidRecord;
    for i := 0 to |script|
      invariant h.Valid() && owned.Valid(h) && h.log == old(h.log) && h.world == old(h.world)
      invariant owned.created && !owned.verified && owned.identity == old(owned.identity)
    {
      var r := Perform(h, owned, script[i]);
    }
  }
}
