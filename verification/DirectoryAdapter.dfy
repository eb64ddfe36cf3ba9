/** Directory callbacks made of dscl commands. */
module DirectoryAdapter {
  import opened Basics
  import opened Commands
  import opened Records
  import opened Discipline
  import opened HostModel
  import opened Decimals
  import opened LineText
  import opened SearchText
  import opened DirectoryText
  import Ownership = AccountOwnership

  const DSCL := "/usr/bin/dscl"
  const ACCOUNT_PATH := "/Users/" + ACCOUNT_NAME

  const CREATE_COUNT: nat := 8

  /** The commands of one create, in order. */
  function CreateCommand(r: AccountRecord, i: nat): seq<string> {
    match i
    case 0 => [DSCL, ".", "-create", ACCOUNT_PATH]
    case 1 => [DSCL, ".", "-create", ACCOUNT_PATH, "UniqueID", Render(r.uniqueId)]
    case 2 => [DSCL, ".", "-create", ACCOUNT_PATH, "GeneratedUID", r.generatedUid]
    case 3 => [DSCL, ".", "-create", ACCOUNT_PATH, "UserShell", r.shell]
    case 4 => [DSCL, ".", "-create", ACCOUNT_PATH, "NFSHomeDirectory", r.home]
    case 5 => [DSCL, ".", "-create", ACCOUNT_PATH, "PrimaryGroupID", "20"]
    case 6 => [DSCL, ".", "-create", ACCOUNT_PATH, "IsHidden", "1"]
    case _ => [DSCL, ".", "-create", ACCOUNT_PATH, "RealName", "Bitwarden Agent Bridge"]
  }

  const READ_COMMAND := [DSCL, ".", "-read", ACCOUNT_PATH, "UniqueID", "GeneratedUID", "UserShell", "NFSHomeDirectory"]
  const DELETE_COMMAND := [DSCL, ".", "-delete", ACCOUNT_PATH]

  function SearchCommand(attribute: string,
                         value: string): seq<string> { [DSCL, ".", "-search", "/Users", attribute, value] }

  /** A log after the first commands of a create and what came back from each. */
  function CreateLog(l: Log, r: AccountRecord, outs: seq<Option<CommandOutput>>): Log {
    if outs == [] then l
    else Then(CreateLog(l, r, outs[..|outs| - 1]), RunCommand(CreateCommand(r, |outs| - 1), outs[|outs| - 1]))
  }

  lemma CreateLogNothing(l: Log, r: AccountRecord)
    ensures CreateLog(l, r, []) == l
  {
  }

  lemma CreateLogNext(l: Log, r: AccountRecord, outs: seq<Option<CommandOutput>>, o: Option<CommandOutput>)
    ensures CreateLog(l, r, outs + [o]) == Then(CreateLog(l, r, outs), RunCommand(CreateCommand(r, |outs|), o))
  {
    assert (outs + [o])[..|outs|] == outs;
  }

  /** What becomes of a record when a property is written. */
  function WithProperty(a: Account, property: string, value: string): Account {
    if property == "UniqueID" then a.(uid := if value != "" && Digits(value) then Some(Dec(value)) else a.uid)
    else if property == "GeneratedUID" then a.(guid := Some(value))
    else if property == "UserShell" then a.(shell := Some(value))
    else if property == "NFSHomeDirectory" then a.(home := Some(value))
    else a
  }

  /** What a command makes of the account's slot, by its words. */
  function Done(slot: Option<Account>, args: seq<string>): Option<Account> {
    if |args| < 4 || args[3] != ACCOUNT_PATH then slot
    else if args[2] == "-delete" then None
    else if args[2] != "-create" then slot
    else
      var a := if slot.Some? then slot.value else Account(None, None, None, None);
      Some(if |args| == 6 then WithProperty(a, args[4], args[5]) else a)
  }

  /** What the slot holds after the first `n` commands of a create, when each does what it says. */
  function Applied(slot: Option<Account>, r: AccountRecord, n: nat): Option<Account> {
    if n == 0 then slot else Done(Applied(slot, r, n - 1), CreateCommand(r, n - 1))
  }

  /** Whatever it held before, all eight leave the complete record in it. */
  lemma AllApplied(slot: Option<Account>, r: AccountRecord)
    ensures Applied(slot, r, CREATE_COUNT) == Some(Complete(r))
  {
    hide ACCOUNT_NAME, Render, Digits, Dec, Done, CreateCommand;
    var a := if slot.Some? then slot.value else Account(None, None, None, None);
    Created(slot, r);
    Given(a, r);
    var b := a.(uid := Some(r.uniqueId));
    Given(b, r);
    var c := b.(guid := Some(r.generatedUid));
    Given(c, r);
    var d := c.(shell := Some(r.shell));
    Given(d, r);
    Given(Complete(r), r);
    assert Applied(slot, r, 0) == slot && Applied(slot, r, 1) == Some(a) && Applied(slot, r, 2) == Some(b);
    assert Applied(slot, r, 3) == Some(c) && Applied(slot, r, 4) == Some(d);
    assert Applied(slot, r, 5) == Applied(slot, r, 6) == Applied(slot, r, 7) == Some(Complete(r));
  }

  lemma Created(slot: Option<Account>, r: AccountRecord)
    ensures Done(slot, CreateCommand(r, 0)) ==
            Some(if slot.Some? then slot.value else Account(None, None, None, None))
  {
    hide ACCOUNT_NAME;
  }

  /** Each later command writes its own property. */
  lemma Given(a: Account, r: AccountRecord)
    ensures Done(Some(a), CreateCommand(r, 1)) == Some(a.(uid := Some(r.uniqueId)))
    ensures Done(Some(a), CreateCommand(r, 2)) == Some(a.(guid := Some(r.generatedUid)))
    ensures Done(Some(a), CreateCommand(r, 3)) == Some(a.(shell := Some(r.shell)))
    ensures Done(Some(a), CreateCommand(r, 4)) == Some(a.(home := Some(r.home)))
    ensures forall i | 5 <= i < CREATE_COUNT :: Done(Some(a), CreateCommand(r, i)) == Some(a)
  {
    hide ACCOUNT_NAME, Render, Digits, Dec;
    DecRender(r.uniqueId);
    RenderDigits(r.uniqueId);
  }

  lemma RenderDigits(n: nat)
    ensures Render(n) != "" && Digits(Render(n))
  {
    hide Digits;
  }

  /** Reads and searches change nothing, and the delete command empties the slot. */
  lemma CommandEffects(slot: Option<Account>, attribute: string, value: string)
    ensures Done(slot, READ_COMMAND) == Done(slot, SearchCommand(attribute, value)) == slot
    ensures Done(slot, DELETE_COMMAND) == None
  {
    hide ACCOUNT_NAME;
  }

  function Slot(w: World): Option<Account> {
    if ACCOUNT_NAME in w.accounts then Some(w.accounts[ACCOUNT_NAME]) else None
  }

  /** The world with another content of the account's slot. */
  function WithSlot(w: World, slot: Option<Account>): World {
    w.(accounts := if slot.Some? then w.accounts[ACCOUNT_NAME := slot.value] else w.accounts - {ACCOUNT_NAME})
  }

  ghost predicate Holds(w: World, a: Account) { ACCOUNT_NAME in w.accounts && w.accounts[ACCOUNT_NAME] == a }

  /** One command of a create: untrusted, but confined to the account's slot. */
  method RunCreate(h: Host, r: AccountRecord, i: nat) returns (o: Option<CommandOutput>)
    requires h.Valid() && i < CREATE_COUNT
    modifies h`world, h`rest, h`still, h`log, h`mon
    ensures h.AccountDeed() && h.mon == old(h.mon)
    ensures h.log == Then(old(h.log), RunCommand(CreateCommand(r, i), o))
    ensures h.obligingDirectory && h.exclusive ==>
              Silent(o) && Slot(h.world) == Done(Slot(old(h.world)), CreateCommand(r, i))
  {
    hide Watch, Step, CreateCommand, Done;
    h.Interfere();
    o := *;
    var left: Option<Account> := *;
    if h.obligingDirectory {
      o, left := Some(CommandOutput(true, 0, false, "", "")), Done(Slot(h.world), CreateCommand(r, i));
    }
    h.world := WithSlot(h.world, left);
    h.Look(RunCommand(CreateCommand(r, i), o));
  }

  /**
    The eight commands of a create stop at the first that is not clean and silent. Once one was issued the answer is
    OK for all eight, and otherwise ambiguous: never an error, never "no effect".
   */
  method CreateRecord(h: Host, r: AccountRecord) returns (a: Answer, ghost outs: seq<Option<CommandOutput>>)
    requires h.Valid()
    modifies h`world, h`rest, h`still, h`log, h`mon
    ensures h.AccountDeed() && h.mon == old(h.mon)
    ensures a == Error <==> !AdapterRecord(r)
    ensures a == Error <==> outs == []
    ensures a == Ok <==> |outs| == CREATE_COUNT && Silent(outs[CREATE_COUNT - 1])
    ensures a != NoEffect && |outs| <= CREATE_COUNT
    ensures forall i | 0 <= i < |outs| - 1 :: Silent(outs[i])
    ensures a == Ambiguous ==> !Silent(outs[|outs| - 1])
    ensures h.log == CreateLog(old(h.log), r, outs) && (a == Error ==> h.world == old(h.world))
    ensures h.obligingDirectory && h.exclusive && AdapterRecord(r) ==> a == Ok && h.Holds(r)
  {
    hide Watch, Step, Host.Separate, WellFormed, AdapterRecord, CreateCommand, Silent, AccountSlotOnly, CreateLog,
      Done;
    outs := [];
    ghost var slot := Slot(h.world);
    AllApplied(slot, r);
    CreateLogNothing(h.log, r);
    AccountSlotSame(h.world, ACCOUNT_NAME);
    if !AdapterRecord(r) { return Error, outs; }
    var i := 0;
    while i < CREATE_COUNT
      invariant i <= CREATE_COUNT && i == |outs| && h.AccountDeed() && h.mon == old(h.mon)
      invariant forall k | 0 <= k < i :: Silent(outs[k])
      invariant h.log == CreateLog(old(h.log), r, outs)
      invariant h.obligingDirectory && h.exclusive ==> Slot(h.world) == Applied(slot, r, i)
    {
      ghost var was := h.world;
      var o := RunCreate(h, r, i);
      if h.exclusive { AccountSlotTwice(old(h.world), was, h.world, ACCOUNT_NAME); }
      CreateLogNext(old(h.log), r, outs, o);
      outs := outs + [o];
      if !Silent(o) { return Ambiguous, outs; }
      i := i + 1;
    }
    a := Ok;
  }

  /** A read of the record: truthful hosts print the record that is there, if it is there and complete. */
  method RunRead(h: Host) returns (o: Option<CommandOutput>, ghost order: seq<nat>)
    requires h.Valid()
    modifies h`world, h`rest, h`still, h`log, h`mon
    ensures h.Looked() && h.mon == old(h.mon) && h.log == Then(old(h.log), RunCommand(READ_COMMAND, o))
    ensures h.truthful && Clean(o) ==>
              forall v: Values | Prints(o.value.stdout, v) :: Holds(h.world, Complete(RecordOf(v)))
    ensures h.truthful && h.obligingDirectory ==>
              forall r: AccountRecord | AdapterRecord(r) && Holds(h.world, Complete(r)) ::
                Order(order) && Clean(o) && o.value.stdout == Printed(r, order)
  {
    hide Watch, Step, Host.Separate, WellFormed, Prints, AdapterRecord, Printed, RecordOf, ValuesOf, READ_COMMAND;
    h.Interfere();
    order := [0, 1, 2, 3];
    if !h.truthful {
      o := *;
      h.Look(RunCommand(READ_COMMAND, o));
      return;
    }
    o := None;
    var fails: bool := *;
    if (h.obligingDirectory || !fails) && ACCOUNT_NAME in h.world.accounts {
      match h.world.accounts[ACCOUNT_NAME] {
        case Account(Some(u), Some(g), Some(s), Some(d)) =>
          var r := AccountRecord(ACCOUNT_NAME, u, g, s, d);
          SameRecord(h.world, r);
          if AdapterRecord(r) {
            var any: seq<nat> := *;
            if !Order(any) { any := [0, 1, 2, 3]; }
            order := any;
            o := Some(CommandOutput(true, 0, false, Printed(r, any), ""));
            OnlyPrints(r, any);
          }
        case _ =>
      }
    }
    NamedAccount();
    h.Look(RunCommand(READ_COMMAND, o));
  }

  lemma NamedAccount()
    ensures forall r: AccountRecord | AdapterRecord(r) :: r.name == ACCOUNT_NAME
  {
  }

  lemma OnlyPrints(r: AccountRecord, o: seq<nat>)
    requires AdapterRecord(r) && Order(o)
    ensures forall v: Values | Prints(Printed(r, o), v) :: RecordOf(v) == r
  {
    hide Prints, AdapterRecord, Printed, RecordOf, ValuesOf;
    PrintedPrints(r, o);
    forall v: Values | Prints(Printed(r, o), v) ensures RecordOf(v) == r { PrintsOnce(Printed(r, o), v, ValuesOf(r)); }
  }

  lemma SameRecord(w: World, r: AccountRecord)
    requires Holds(w, Complete(r)) && r.name == ACCOUNT_NAME
    ensures forall q: AccountRecord | q.name == ACCOUNT_NAME && Holds(w, Complete(q)) :: q == r
  {
  }

  method ReadRecord(h: Host, name: string)
    returns (r: Option<AccountRecord>, ghost o: Option<CommandOutput>, ghost v: Values)
    requires h.Valid()
    modifies h`world, h`rest, h`still, h`log, h`mon
    ensures h.Looked() && h.mon == old(h.mon)
    ensures h.log == if name == ACCOUNT_NAME then Then(old(h.log), RunCommand(READ_COMMAND, o)) else old(h.log)
    ensures r.Some? ==> name == ACCOUNT_NAME && Clean(o) && Prints(o.value.stdout, v) && r.value == RecordOf(v)
    ensures name == ACCOUNT_NAME && Clean(o) && r.None? ==> forall x: Values :: !Prints(o.value.stdout, x)
    // what the account layer expects of a truthful read
    ensures name == ACCOUNT_NAME ==> h.RecordAnswer(r, AdapterRecord)
  {
    hide Watch, Step, Host.Separate, WellFormed, Prints, AdapterRecord, Printed, READ_COMMAND, ValuesOf;
    v := ["", "", "", ""];
    if name != ACCOUNT_NAME { return None, None, v; }
    var out;
    ghost var order;
    out, order := RunRead(h);
    o := out;
    r := None;
    if Clean(out) { r, v := ParseRecord(out.value.stdout); }
    if h.truthful && h.obligingDirectory && r.None? {
      forall x: AccountRecord ensures !(x.name == ACCOUNT_NAME && AdapterRecord(x) && h.Holds(x)) {
        if AdapterRecord(x) && Holds(h.world, Complete(x)) {
          PrintedPrints(x, order);
          assert false;
        }
      }
    }
  }

  /** The delete command itself acts on whatever the slot holds by then; `kept` says that nobody came between. */
  method RunDelete(h: Host) returns (o: Option<CommandOutput>, ghost hit: Option<Account>, ghost kept: bool)
    requires h.Valid()
    modifies h`world, h`rest, h`still, h`log, h`mon
    ensures h.AccountDeed() && h.mon == old(h.mon) && h.log == Then(old(h.log), RunCommand(DELETE_COMMAND, o))
    ensures (kept <==> hit == old(h.AccountSlot())) && (h.exclusive ==> kept)
    ensures h.obligingDirectory && h.exclusive ==>
              Silent(o) && h.world == old(h.world).(accounts := old(h.world).accounts - {ACCOUNT_NAME})
  {
    hide Watch, Step, DELETE_COMMAND, READ_COMMAND;
    h.Interfere();
    hit := h.AccountSlot();
    kept := hit == old(h.AccountSlot());
    o := *;
    var left: Option<Account> := *;
    if h.obligingDirectory {
      o, left := Some(CommandOutput(true, 0, false, "", "")), Done(Slot(h.world), DELETE_COMMAND);
    }
    CommandEffects(Slot(h.world), "", "");
    h.world := WithSlot(h.world, left);
    h.Look(RunCommand(DELETE_COMMAND, o));
  }

  /**
   What a delete did: whether its command went out, what that found and answered, and whether the record had been left
   alone since the read.
   */
  datatype Deletion = Deletion(sent: bool, hit: Option<Account>, kept: bool, output: Option<CommandOutput>)

  /**
    A delete goes out only after a read that came back as the record to delete. The command removes whatever is in the
    slot, and on a host that reads truthfully that is the complete record unless somebody wrote the slot in between.
   */
  method DeleteRecord(h: Host, r: AccountRecord)
    returns (a: Answer, ghost d: Deletion, ghost sure: bool, ghost o: Option<CommandOutput>, ghost v: Values)
    requires h.Valid()
    modifies h`world, h`rest, h`still, h`log, h`mon
    ensures h.AccountDeed() && h.mon == old(h.mon)
    ensures a != NoEffect && (a == Error <==> !AdapterRecord(r)) && (a == Ok <==> d.sent && Silent(d.output))
    ensures a == Error ==> !d.sent && h.log == old(h.log) && h.world == old(h.world)
    ensures a != Error ==>
              h.log == if d.sent then Then(Then(old(h.log), RunCommand(READ_COMMAND, o)),
                                           RunCommand(DELETE_COMMAND, d.output))
              else Then(old(h.log), RunCommand(READ_COMMAND, o))
    ensures d.sent ==> Clean(o) && Prints(o.value.stdout, v) && RecordOf(v) == r
    // the adapter's own comparison, between its read and its command
    ensures h.truthful && d.sent && d.kept ==> d.hit == Some(Complete(r))
    ensures h.exclusive ==> d.kept
    ensures !d.sent ==> d.hit.None? && h.Looked()
    // what the account layer relies on
    ensures AdapterRecord(r) && h.truthful ==> h.DeleteAnswer(r, a, d.hit, sure)
  {
    hide Watch, Step, WellFormed, Host.Separate, Prints, AdapterRecord, RecordOf, READ_COMMAND, DELETE_COMMAND;
    d, sure, o, v := Deletion(false, None, true, None), h.truthful, None, ["", "", "", ""];
    if !AdapterRecord(r) { return Error, d, sure, o, v; }
    NamedAccount();
    var current;
    current, o, v := ReadRecord(h, ACCOUNT_NAME);
    if current != Some(r) { return Ambiguous, d, sure, o, v; }
    var out;
    ghost var hit, kept;
    out, hit, kept := RunDelete(h);
    d := Deletion(true, hit, kept, out);
    sure := h.truthful && hit == old(h.AccountSlot());
    a := if Silent(out) then Ok else Ambiguous;
  }

  // ---- searches ----

  /** The three reviewed questions. */
  datatype Query = ByName | ByNumber(uid: nat) | ByUuid(guid: string)
  {
    function Attribute(): string {
      match this
      case ByName => "RecordName"
      case ByNumber(_) => "UniqueID"
      case ByUuid(_) => "GeneratedUID"
    }

    function Text(): string {
      match this
      case ByName => ACCOUNT_NAME
      case ByNumber(u) => Render(u)
      case ByUuid(g) => g
    }

    function Command(): seq<string> { SearchCommand(Attribute(), Text()) }

    /** Whether some account answers to it. */
    predicate Fact(w: World, o: Rest) {
      match this
      case ByName => ACCOUNT_NAME in w.accounts
      case ByNumber(u) => UidTaken(w, o, u)
      case ByUuid(g) => GuidTaken(w, o, g)
    }
  }

  /** One line of two fields, as a search prints for a single hit. */
  const HIT := "a b\n"

  lemma HitIsResult()
    ensures SearchResult(HIT)
  {
    var line := "a b";
    assert HIT == Joined([line]) by { assert Joined([]) == ""; assert [line][1..] == []; }
    LinesOfJoined([line]);
    assert TwoFieldsAt(line, 0, 1, 2);
    TwoFieldsForm(line);
  }

  /** A search: truthful hosts print nothing exactly when nothing is found, obliging ones print well-formed results. */
  method RunSearch(h: Host, q: Query) returns (o: Option<CommandOutput>)
    requires h.Valid()
    modifies h`world, h`rest, h`still, h`log, h`mon
    ensures h.Looked() && h.mon == old(h.mon) && h.log == Then(old(h.log), RunCommand(q.Command(), o))
    ensures h.truthful && Clean(o) ==> (o.value.stdout == "" <==> !q.Fact(h.world, h.rest))
    ensures h.truthful && h.obligingDirectory ==> Clean(o) && SearchResult(o.value.stdout)
  {
    hide Watch, Step, WellFormed, Host.Separate, SearchCommand, UidTaken, GuidTaken, SearchResult, HIT;
    h.Interfere();
    var out: Option<CommandOutput> := *;
    if h.truthful {
      var text := "";
      if q.Fact(h.world, h.rest) {
        text := *;
        var safe := SafeSearchOutput(text);
        if text == "" || (h.obligingDirectory && !safe) { text := HIT; }
        HitIsResult();
      }
      if h.obligingDirectory { out := Some(CommandOutput(true, 0, false, text, "")); }
      if out.Some? { out := Some(out.value.(stdout := text)); }
      HitFilled();
    }
    o := out;
    h.Look(RunCommand(q.Command(), o));
    NothingIsResult();
  }

  lemma HitFilled()
    ensures HIT != ""
  {
  }

  lemma NothingIsResult()
    ensures SearchResult("")
  {
  }

  /** Absent is an empty clean answer, present a clean answer made of nothing but results. */
  method Search(h: Host, q: Query) returns (p: Probe, ghost o: Option<CommandOutput>)
    requires h.Valid()
    modifies h`world, h`rest, h`still, h`log, h`mon
    ensures h.Looked() && h.mon == old(h.mon) && h.log == Then(old(h.log), RunCommand(q.Command(), o))
    ensures Searched(p, o)
    ensures h.Answers(p, q.Fact(h.world, h.rest), h.obligingDirectory)
  {
    hide Watch, Step, WellFormed, Host.Separate, SearchCommand, UidTaken, GuidTaken, SearchResult;
    NothingIsResult();
    var out := RunSearch(h, q);
    o := out;
    if !Clean(out) { return ProbeError, o; }
    var safe := SafeSearchOutput(out.value.stdout);
    p := if !safe then ProbeError else if out.value.stdout == "" then Absent else Present;
  }

  /** What a search answered, and what the account layer may conclude from it. */
  ghost predicate Searched(p: Probe, o: Option<CommandOutput>) {
    && (p == Absent <==> Silent(o))
    && (p == Present <==> Clean(o) && o.value.stdout != "" && SearchResult(o.value.stdout))
  }

  /** Only the three reviewed names are ever searched for. */
  method ProbeGeneratedUid(h: Host, guid: string) returns (p: Probe, ghost o: Option<CommandOutput>)
    requires h.Valid()
    modifies h`world, h`rest, h`still, h`log, h`mon
    ensures h.Looked() && h.mon == old(h.mon)
    ensures !Ownership.CanonicalUuid(guid) ==> p == ProbeError && h.log == old(h.log)
    ensures Ownership.CanonicalUuid(guid) ==>
              && h.log ==
                 Then(old(h.log), RunCommand(["/usr/bin/dscl", ".", "-search", "/Users", "GeneratedUID", guid], o))
              && Searched(p, o) && h.GuidAnswer(guid, p)
  {
    hide Watch, Step, WellFormed, Host.Separate, GuidTaken, SearchResult;
    if !Ownership.CanonicalUuid(guid) { return ProbeError, None; }
    p, o := Search(h, ByUuid(guid));
  }

  method ProbeUniqueId(h: Host, uid: nat) returns (p: Probe, ghost o: Option<CommandOutput>)
    requires h.Valid()
    modifies h`world, h`rest, h`still, h`log, h`mon
    ensures h.Looked() && h.mon == old(h.mon)
    ensures !(1 <= uid <= 499) ==> p == ProbeError && h.log == old(h.log)
    ensures 1 <= uid <= 499 ==>
              && h.log ==
                 Then(old(h.log), RunCommand(["/usr/bin/dscl", ".", "-search", "/Users", "UniqueID", Render(uid)], o))
              && Searched(p, o) && h.UidAnswer(uid, p)
  {
    hide Watch, Step, WellFormed, Host.Separate, UidTaken, SearchResult;
    if uid < 1 || uid > 499 { return ProbeError, None; }
    p, o := Search(h, ByNumber(uid));
  }

  method ProbeName(h: Host, name: string) returns (p: Probe, ghost o: Option<CommandOutput>)
    requires h.Valid()
    modifies h`world, h`rest, h`still, h`log, h`mon
    ensures h.Looked() && h.mon == old(h.mon)
    ensures name != ACCOUNT_NAME ==> p == ProbeError && h.log == old(h.log)
    ensures name == ACCOUNT_NAME ==>
              && h.log ==
                 Then(old(h.log), RunCommand(["/usr/bin/dscl", ".", "-search", "/Users", "RecordName", name], o))
              && Searched(p, o) && h.NameAnswer(p)
  {
    hide Watch, Step, WellFormed, Host.Separate, SearchResult;
    if name != ACCOUNT_NAME { return ProbeError, None; }
    p, o := Search(h, ByName);
  }
}
