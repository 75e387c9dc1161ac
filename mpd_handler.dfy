/** The per-connection request handler of src/mpd/mod.rs: subsystem-change
    notifications, the idle state, command-list reading, and command dispatch
    through a registry of command implementations. The socket is a sequence
    of raw lines still to be read plus the text written so far; a read at the
    end of the input yields "". */
module MpdHandler {
  import opened Base
  import opened Text
  import opened MpdLine
  import C = MpdCommands
  import opened Framing

  // ----- subsystem events -----

  /** Subsystems whose change is announced to idle clients, in declaration
      order (which is also their derived ordering). */
  datatype SubsystemEvent =
    | Database | Update | StoragePlaylist | Playlist | Mixer | Output | Options
    | Partition | Sticker | Subscription | Message

  const AllSubsystems: seq<SubsystemEvent> :=
    [Database, Update, StoragePlaylist, Playlist, Mixer, Output, Options,
     Partition, Sticker, Subscription, Message]

  /** Position in the declaration, which the derived `Ord` compares. */
  function Ordinal(e: SubsystemEvent): (n: nat)
    ensures n < |AllSubsystems| && AllSubsystems[n] == e
  {
    match e
    case Database => 0
    case Update => 1
    case StoragePlaylist => 2
    case Playlist => 3
    case Mixer => 4
    case Output => 5
    case Options => 6
    case Partition => 7
    case Sticker => 8
    case Subscription => 9
    case Message => 10
  }

  /** The derived `Debug` name, which `Display` writes. */
  function DebugName(e: SubsystemEvent): string {
    match e
    case Database => "Database"
    case Update => "Update"
    case StoragePlaylist => "StoragePlaylist"
    case Playlist => "Playlist"
    case Mixer => "Mixer"
    case Output => "Output"
    case Options => "Options"
    case Partition => "Partition"
    case Sticker => "Sticker"
    case Subscription => "Subscription"
    case Message => "Message"
  }

  /** The name announced in a `changed:` line. */
  function Name(e: SubsystemEvent): string {
    ToLower(DebugName(e))
  }

  /** Distinct subsystems are announced under distinct names. */
  lemma NameInjective(a: SubsystemEvent, b: SubsystemEvent)
    requires Name(a) == Name(b)
    ensures a == b
  {
    assert |DebugName(a)| == |Name(a)| == |Name(b)| == |DebugName(b)|;
    assert LowerChar(DebugName(a)[0]) == Name(a)[0] == Name(b)[0] == LowerChar(DebugName(b)[0]);
  }

  predicate StrictlySorted(s: seq<SubsystemEvent>) {
    forall i, j :: 0 <= i < j < |s| ==> Ordinal(s[i]) < Ordinal(s[j])
  }

  /** The events of `xs` that are pending, in the order of `xs`. */
  function Keep(xs: seq<SubsystemEvent>, pending: seq<SubsystemEvent>): (r: seq<SubsystemEvent>)
    ensures forall e :: e in r <==> e in xs && e in pending
  {
    if xs == [] then []
    else
      assert xs == [xs[0]] + xs[1..];
      (if xs[0] in pending then [xs[0]] else []) + Keep(xs[1..], pending)
  }

  lemma {:induction false} KeepSorted(xs: seq<SubsystemEvent>, pending: seq<SubsystemEvent>)
    requires StrictlySorted(xs)
    ensures StrictlySorted(Keep(xs, pending))
  {
    if xs != [] {
      var rest := Keep(xs[1..], pending);
      KeepSorted(xs[1..], pending);
      forall e | e in rest ensures Ordinal(xs[0]) < Ordinal(e) {
        var j :| 0 <= j < |xs[1..]| && xs[1..][j] == e;
        assert xs[j + 1] == e;
      }
    }
  }

  lemma AllSubsystemsSorted()
    ensures StrictlySorted(AllSubsystems)
    ensures forall e :: e in AllSubsystems
  {
    forall i | 0 <= i < |AllSubsystems| ensures Ordinal(AllSubsystems[i]) == i {
    }
    forall e ensures e in AllSubsystems {
      assert AllSubsystems[Ordinal(e)] == e;
    }
  }

  /** The pending events after `sort()` and `dedup()`. */
  function SortedDedup(pending: seq<SubsystemEvent>): (r: seq<SubsystemEvent>)
    ensures StrictlySorted(r)
    ensures forall e :: e in r <==> e in pending
  {
    AllSubsystemsSorted();
    KeepSorted(AllSubsystems, pending);
    Keep(AllSubsystems, pending)
  }

  /** The head of a strictly sorted sequence comes first in declaration
      order, and the tail holds exactly the other elements. */
  lemma SortedHead(a: seq<SubsystemEvent>)
    requires StrictlySorted(a) && a != []
    ensures forall e :: e in a ==> Ordinal(a[0]) <= Ordinal(e)
    ensures forall e :: e in a[1..] <==> e in a && e != a[0]
  {
    forall e | e in a ensures Ordinal(a[0]) <= Ordinal(e) {
      var i :| 0 <= i < |a| && a[i] == e;
    }
    forall e ensures e in a[1..] <==> e in a && e != a[0] {
      if e in a[1..] {
        var k :| 0 <= k < |a[1..]| && a[1..][k] == e;
        assert a[k + 1] == e;
      }
      if e in a && e != a[0] {
        var i :| 0 <= i < |a| && a[i] == e;
        assert a[1..][i - 1] == e;
      }
    }
  }

  /** Two strictly sorted sequences with the same elements are equal. */
  lemma {:induction false} SortedUnique(a: seq<SubsystemEvent>, b: seq<SubsystemEvent>)
    requires StrictlySorted(a) && StrictlySorted(b)
    requires forall e :: e in a <==> e in b
    ensures a == b
  {
    if a != [] { assert a[0] in a; }
    if b != [] { assert b[0] in b; }
    if a != [] && b != [] {
      SortedHead(a);
      SortedHead(b);
      assert AllSubsystems[Ordinal(a[0])] == a[0] && AllSubsystems[Ordinal(b[0])] == b[0];
      assert a[0] == b[0];
      KeepTailsSorted(a);
      KeepTailsSorted(b);
      SortedUnique(a[1..], b[1..]);
      assert a == [a[0]] + a[1..] && b == [b[0]] + b[1..];
    }
  }

  lemma KeepTailsSorted(a: seq<SubsystemEvent>)
    requires StrictlySorted(a) && a != []
    ensures StrictlySorted(a[1..])
  {
    forall i, j | 0 <= i < j < |a[1..]| ensures Ordinal(a[1..][i]) < Ordinal(a[1..][j]) {
      assert a[1..][i] == a[i + 1] && a[1..][j] == a[j + 1];
    }
  }

  /** `SortedDedup` is what sorting and removing duplicates gives: the only
      strictly sorted sequence holding exactly the pending events. */
  lemma SortedDedupIsUnique(pending: seq<SubsystemEvent>, s: seq<SubsystemEvent>)
    requires StrictlySorted(s) && forall e :: e in s <==> e in pending
    ensures s == SortedDedup(pending)
  {
    SortedUnique(s, SortedDedup(pending));
  }

  function Names(events: seq<SubsystemEvent>): (names: seq<string>)
    ensures |names| == |events|
  {
    seq(|events|, i requires 0 <= i < |events| => Name(events[i]))
  }

  /** The text `send_subsystem_changed` writes for the pending events. */
  function ChangedText(pending: seq<SubsystemEvent>): (text: string)
    ensures StartsWith(text, "changed: ")
    ensures |text| >= 13 && text[|text| - 4..] == "\nOK\n"
  {
    "changed: " + Join(Names(SortedDedup(pending)), ", ") + "\nOK\n"
  }

  /** A `changed:` line names each changed subsystem exactly once. */
  lemma ChangedNamesDistinct(pending: seq<SubsystemEvent>)
    ensures forall i, j :: 0 <= i < j < |Names(SortedDedup(pending))| ==>
              Names(SortedDedup(pending))[i] != Names(SortedDedup(pending))[j]
    ensures forall e :: e in pending <==> Name(e) in Names(SortedDedup(pending))
  {
    var s := SortedDedup(pending);
    forall i, j | 0 <= i < j < |s| ensures Names(s)[i] != Names(s)[j] {
      if Names(s)[i] == Names(s)[j] { NameInjective(s[i], s[j]); }
    }
    forall e ensures e in pending <==> Name(e) in Names(s) {
      if e in pending {
        var i :| 0 <= i < |s| && s[i] == e;
        assert Names(s)[i] == Name(e);
      }
      if Name(e) in Names(s) {
        var i :| 0 <= i < |s| && Names(s)[i] == Name(e);
        NameInjective(s[i], e);
      }
    }
  }

  /** A single event is announced on its own. */
  lemma ChangedSingle(e: SubsystemEvent)
    ensures ChangedText([e]) == "changed: " + Name(e) + "\nOK\n"
  {
    SortedDedupIsUnique([e], [e]);
  }

  // ----- command dispatch -----

  /** One entry of the command registry: the verbs it answers to and the
      implementation it runs. */
  datatype Entry = Entry(types: seq<string>, kind: C.CommandKind)

  /** Runs a command implementation on the captured argument. */
  type Handler = (C.CommandKind, Option<string>) -> C.Reply

  /** Index of the first registry entry answering to `verb`. */
  function FindEntry(registry: seq<Entry>, verb: string): (r: Option<nat>)
    ensures r.Some? ==> r.value < |registry| && verb in registry[r.value].types
    ensures r.Some? ==> forall j :: 0 <= j < r.value ==> verb !in registry[j].types
    ensures r.None? ==> forall j :: 0 <= j < |registry| ==> verb !in registry[j].types
  {
    if registry == [] then None
    else if verb in registry[0].types then Some(0)
    else match FindEntry(registry[1..], verb) {
      case None => None
      case Some(j) => Some(j + 1)
    }
  }

  /** The `command: t` lines of one entry, one per type, in order. */
  function TypeLines(types: seq<string>): (lines: seq<string>)
    ensures |lines| == |types|
    ensures forall i :: 0 <= i < |types| ==> lines[i] == "command: " + types[i]
  {
    seq(|types|, i requires 0 <= i < |types| => "command: " + types[i])
  }

  /** `command: t` for every verb of every entry, in registry order. */
  function Listing(registry: seq<Entry>): (lines: seq<string>)
  {
    if registry == [] then [] else TypeLines(registry[0].types) + Listing(registry[1..])
  }

  /** A `command: t` line is listed exactly when some entry answers to `t`. */
  lemma {:induction false} ListingMembers(registry: seq<Entry>)
    ensures forall t :: "command: " + t in Listing(registry) <==>
              exists i :: 0 <= i < |registry| && t in registry[i].types
  {
    if registry != [] {
      var first := TypeLines(registry[0].types);
      ListingMembers(registry[1..]);
      assert Listing(registry) == first + Listing(registry[1..]);
      forall t ensures "command: " + t in first <==> t in registry[0].types {
        if "command: " + t in first {
          var i :| 0 <= i < |first| && first[i] == "command: " + t;
          assert ("command: " + t)[9..] == t && first[i][9..] == registry[0].types[i];
        }
        if t in registry[0].types {
          var i :| 0 <= i < |registry[0].types| && registry[0].types[i] == t;
          assert first[i] == "command: " + t;
        }
      }
      forall t | exists i :: 0 <= i < |registry| && t in registry[i].types
        ensures t in registry[0].types || exists i :: 0 <= i < |registry[1..]| && t in registry[1..][i].types
      {
        var i :| 0 <= i < |registry| && t in registry[i].types;
        if i > 0 { assert registry[1..][i - 1] == registry[i]; }
      }
      forall t, i | 0 <= i < |registry[1..]| && t in registry[1..][i].types
        ensures exists i :: 0 <= i < |registry| && t in registry[i].types
      {
        assert registry[i + 1] == registry[1..][i];
      }
    }
  }

  /** The number of types over all entries. */
  function TypeCount(registry: seq<Entry>): nat {
    if registry == [] then 0 else |registry[0].types| + TypeCount(registry[1..])
  }

  lemma {:induction false} TypeCountAppend(a: seq<Entry>, b: seq<Entry>)
    ensures TypeCount(a + b) == TypeCount(a) + TypeCount(b)
  {
    if a != [] {
      assert (a + b)[1..] == a[1..] + b;
      TypeCountAppend(a[1..], b);
    } else {
      assert a + b == b;
    }
  }

  /** The listing of two registries one after the other is the first
      listing followed by the second. */
  lemma {:induction false} ListingAppend(a: seq<Entry>, b: seq<Entry>)
    ensures Listing(a + b) == Listing(a) + Listing(b)
  {
    if a == [] {
      assert a + b == b;
    } else {
      assert (a + b)[0] == a[0];
      assert (a + b)[1..] == a[1..] + b;
      ListingAppend(a[1..], b);
    }
  }

  /** The listing has one line per type of every entry, and the lines of
      entry `i` come right after those of the entries before it, in the
      entry's own order. */
  lemma {:induction false} ListingAt(registry: seq<Entry>, i: nat, j: nat)
    requires i < |registry| && j < |registry[i].types|
    ensures |Listing(registry)| == TypeCount(registry)
    ensures TypeCount(registry[..i]) + j < |Listing(registry)|
    ensures Listing(registry)[TypeCount(registry[..i]) + j] == "command: " + registry[i].types[j]
  {
    var first := TypeLines(registry[0].types);
    assert Listing(registry) == first + Listing(registry[1..]);
    if i == 0 {
      assert registry[..0] == [];
      ListingLength(registry[1..]);
    } else {
      ListingAt(registry[1..], i - 1, j);
      assert registry[..i] == [registry[0]] + registry[1..][..i - 1];
      TypeCountAppend([registry[0]], registry[1..][..i - 1]);
      assert TypeCount([registry[0]]) == |registry[0].types| by {
        assert [registry[0]][1..] == [];
      }
    }
  }

  lemma {:induction false} ListingLength(registry: seq<Entry>)
    ensures |Listing(registry)| == TypeCount(registry)
  {
    if registry != [] {
      ListingLength(registry[1..]);
    }
  }

  /** The nested loops of the `commands` branch of `execute_command`: every
      type of every entry, pushed in registry order. */
  method ListCommands(registry: seq<Entry>) returns (output: seq<string>)
    ensures output == Listing(registry)
  {
    output := [];
    for i := 0 to |registry|
      invariant output == Listing(registry[..i])
    {
      var types := registry[i].types;
      for k := 0 to |types|
        invariant output == Listing(registry[..i]) + TypeLines(types[..k])
      {
        assert TypeLines(types[..k + 1]) == TypeLines(types[..k]) + ["command: " + types[k]];
        output := output + ["command: " + types[k]];
      }
      assert types[..|types|] == types;
      assert registry[..i + 1] == registry[..i] + [registry[i]];
      ListingAppend(registry[..i], [registry[i]]);
      assert Listing([registry[i]]) == TypeLines(types) + Listing([]) by {
        assert [registry[i]][1..] == [];
      }
    }
    assert registry[..|registry|] == registry;
  }

  /** `execute_command`: the first entry answering to the verb runs on the
      captured argument; otherwise the exact line `commands` lists the
      registry and anything else gives no lines. */
  function ExecuteCommand(registry: seq<Entry>, handle: Handler, line: string): (r: C.Reply)
    ensures FindEntry(registry, Verb(line)).None? ==> r.Ok?
    ensures FindEntry(registry, Verb(line)).None? && line != "commands" ==> r == Ok([])
  {
    match FindEntry(registry, Verb(line)) {
      case Some(i) => handle(registry[i].kind, Argument(line))
      case None => Ok(if line == "commands" then Listing(registry) else [])
    }
  }

  /** A registered verb followed by a bare argument runs the first entry
      answering to it, on that argument. */
  lemma DispatchesRegisteredVerb(registry: seq<Entry>, handle: Handler, verb: string, arg: string, i: nat)
    requires verb != "" && NoSpace(verb) && '"' !in verb
    requires arg != "" && !IsSpace(arg[0]) && '"' !in arg
    requires i < |registry| && verb in registry[i].types
    requires forall j :: 0 <= j < i ==> verb !in registry[j].types
    ensures ExecuteCommand(registry, handle, verb + " " + arg) == handle(registry[i].kind, Some(arg))
  {
    VerbOfCommand(verb, arg);
    BareArgument(verb, arg);
  }

  /** A line with a verb nobody answers to gives an empty success, unless it
      is exactly `commands`, which lists every registered verb. */
  lemma UnregisteredVerb(registry: seq<Entry>, handle: Handler, line: string)
    requires forall j :: 0 <= j < |registry| ==> Verb(line) !in registry[j].types
    ensures line != "commands" ==> ExecuteCommand(registry, handle, line) == Ok([])
    ensures line == "commands" ==> ExecuteCommand(registry, handle, line) == Ok(Listing(registry))
    ensures line == "commands" ==> (ExecuteCommand(registry, handle, line).Ok? &&
              forall t :: "command: " + t in ExecuteCommand(registry, handle, line).value <==>
                exists i :: 0 <= i < |registry| && t in registry[i].types)
  {
    ListingMembers(registry);
  }

  /** Command execution against a fixed registry. */
  function Exec(registry: seq<Entry>, handle: Handler): string -> C.Reply {
    line => ExecuteCommand(registry, handle, line)
  }

  // ----- reading command lists -----

  const ListStart := "command_list_start"
  const ListEnd := "command_list_end"

  /** Some line at or after `from` is an end marker. */
  predicate HasEnd(lines: seq<string>, from: nat)
    decreases |lines| - from
  {
    from < |lines| && (Trim(lines[from]) == ListEnd || HasEnd(lines, from + 1))
  }

  lemma {:induction false} HasEndBefore(lines: seq<string>, from: nat, k: nat)
    requires from <= k < |lines| && Trim(lines[k]) == ListEnd
    ensures HasEnd(lines, from)
    decreases k - from
  {
    if from < k {
      HasEndBefore(lines, from + 1, k);
    }
  }

  /** Reading never hangs: a list that is opened is closed later on. */
  predicate ListTerminated(lines: seq<string>) {
    lines == [] || Trim(lines[0]) != ListStart || HasEnd(lines, 1)
  }

  /** Index of the first end marker at or after `from`. */
  function FirstEnd(lines: seq<string>, from: nat): (k: nat)
    requires HasEnd(lines, from)
    ensures from <= k < |lines| && Trim(lines[k]) == ListEnd
    ensures forall j :: from <= j < k ==> Trim(lines[j]) != ListEnd
    decreases |lines| - from
  {
    if Trim(lines[from]) == ListEnd then from else FirstEnd(lines, from + 1)
  }

  function TrimAll(lines: seq<string>): (r: seq<string>)
    ensures |r| == |lines|
  {
    seq(|lines|, i requires 0 <= i < |lines| => Trim(lines[i]))
  }

  lemma TrimAllExtend(lines: seq<string>, i: nat, j: nat)
    requires i <= j < |lines|
    ensures TrimAll(lines[i..j + 1]) == TrimAll(lines[i..j]) + [Trim(lines[j])]
  {
    assert lines[i..j + 1] == lines[i..j] + [lines[j]];
  }

  /** The command list `get_command_list` reads from `lines` (with the loop
      reading into the variable its guard tests) and how many lines it
      consumes. */
  function CommandListOf(lines: seq<string>): (r: (seq<string>, nat))
    requires ListTerminated(lines)
    ensures r.1 <= |lines|
  {
    if lines == [] then ([""], 0)
    else if Trim(lines[0]) != ListStart then ([Trim(lines[0])], 1)
    else
      var k := FirstEnd(lines, 1);
      (TrimAll(lines[1..k]), k + 1)
  }

  lemma MarkerTrimmed(marker: string)
    requires marker == ListStart || marker == ListEnd
    ensures Trim(marker) == marker
  {
    assert !IsSpace(marker[0]) && !IsSpace(marker[|marker| - 1]);
  }

  lemma MarkersTrimmed()
    ensures Trim(ListStart) == ListStart && Trim(ListEnd) == ListEnd
  {
    MarkerTrimmed(ListStart);
    MarkerTrimmed(ListEnd);
  }

  /** A framed batch is read back exactly, and the lines after it are left
      for the next read; a single line is read on its own. */
  lemma CommandListRoundTrip(cmds: seq<string>, rest: seq<string>)
    requires forall i :: 0 <= i < |cmds| ==> Trim(cmds[i]) == cmds[i] && cmds[i] != ListEnd
    ensures ListTerminated([ListStart] + cmds + [ListEnd] + rest)
    ensures CommandListOf([ListStart] + cmds + [ListEnd] + rest) == (cmds, |cmds| + 2)
  {
    var lines := [ListStart] + cmds + [ListEnd] + rest;
    MarkersTrimmed();
    assert lines[|cmds| + 1] == ListEnd;
    HasEndBefore(lines, 1, |cmds| + 1);
    forall j | 1 <= j < |cmds| + 1 ensures Trim(lines[j]) != ListEnd {
      assert lines[j] == cmds[j - 1];
    }
    assert FirstEnd(lines, 1) == |cmds| + 1;
    assert TrimAll(lines[1..|cmds| + 1]) == cmds;
  }

  lemma SingleLine(line: string, rest: seq<string>)
    requires Trim(line) != ListStart
    ensures ListTerminated([line] + rest)
    ensures CommandListOf([line] + rest) == ([Trim(line)], 1)
  {
  }

  /** The loop of `get_command_list` as written: the line it reads is bound
      to a new `command` inside `if let`, so the `command` its guard tests
      keeps the value `command_list_start`. Runs `rounds` iterations and
      reports whether the guard still holds. */
  method CollectAsWritten(lines: seq<string>, rounds: nat) returns (list: seq<string>, guard: bool)
    requires lines != [] && Trim(lines[0]) == ListStart
    ensures guard
  {
    var command := Trim(lines[0]);
    var input := lines[1..];
    list := [];
    var n := 0;
    while n < rounds && command != ListEnd
      invariant command == ListStart
      decreases rounds - n
    {
      var read := if input == [] then "" else Trim(input[0]);
      input := if input == [] then [] else input[1..];
      if read != ListEnd {
        list := list + [read];
      }
      n := n + 1;
    }
    guard := command != ListEnd;
  }

  /** With `command_list_start`, `status`, `command_list_end` sent, the loop
      as written has read the end marker after two rounds and still goes
      on, so the list never runs. */
  method ListNeverEndsAsWritten() returns (list: seq<string>, guard: bool)
    ensures guard
  {
    MarkersTrimmed();
    list, guard := CollectAsWritten([ListStart, "status", ListEnd], 2);
  }

  // ----- the idle state machine -----

  /** The handler's own state: whether the client is idle, and the changes
      not yet announced. */
  datatype Session = Session(idle: bool, pending: seq<SubsystemEvent>)

  /** Nothing is pending while the client is idle. */
  predicate Settled(s: Session) {
    s.idle ==> s.pending == []
  }

  /** An event taken from the bus: recorded, and announced at once when the
      client is idle. Returns the new state and the text written. */
  function Receive(s: Session, event: Option<SubsystemEvent>): (r: (Session, string))
    ensures event.None? ==> r == (s, "")
    ensures event.Some? ==> !r.0.idle
    ensures r.1 != "" <==> event.Some? && s.idle
  {
    match event
    case None => (s, "")
    case Some(e) =>
      if s.idle then (Session(false, []), ChangedText(s.pending + [e]))
      else (Session(false, s.pending + [e]), "")
  }

  /** A command list read while in state `s`, as the loop body handles it. */
  function Respond(s: Session, list: seq<string>, registry: seq<Entry>, handle: Handler): (r: (Session, string))
    ensures r.0.pending == [] || r.0.pending == s.pending
    ensures r.0.idle ==> r.1 == "" && (r.0 == s || (list != [] && list[0] == "idle"))
  {
    if list == [] then (s, "")
    else if list[0] == "idle" then
      if s.pending != [] then
        (Session(false, []), ChangedText(s.pending) + BatchOutput(list[1..], Exec(registry, handle)))
      else (Session(true, []), "")
    else if list[0] == "noidle" then (Session(false, s.pending), BatchOutput(list, Exec(registry, handle)))
    else if s.idle then (s, "")
    else (s, BatchOutput(list, Exec(registry, handle)))
  }

  lemma ReceiveKeepsSettled(s: Session, event: Option<SubsystemEvent>)
    requires Settled(s)
    ensures Settled(Receive(s, event).0)
    ensures event.Some? && s.idle ==> Receive(s, event) == (Session(false, []), ChangedText([event.value]))
    ensures event.Some? && !s.idle ==> Receive(s, event).0.pending == s.pending + [event.value] && Receive(s, event).1 == ""
  {
    if event.Some? && s.idle {
      assert s.pending + [event.value] == [event.value];
    }
  }

  lemma RespondKeepsSettled(s: Session, list: seq<string>, registry: seq<Entry>, handle: Handler)
    requires Settled(s)
    ensures Settled(Respond(s, list, registry, handle).0)
  {
  }

  /** `idle` with nothing pending makes the client idle and runs nothing, not
      even the rest of its list. */
  lemma IdleWaits(s: Session, rest: seq<string>, registry: seq<Entry>, handle: Handler)
    requires s.pending == []
    ensures Respond(s, ["idle"] + rest, registry, handle) == (Session(true, []), "")
  {
  }

  /** While idle, a list that starts with neither `idle` nor `noidle` is not
      run and changes nothing. */
  lemma IdleIgnoresCommands(s: Session, list: seq<string>, registry: seq<Entry>, handle: Handler)
    requires s.idle && list != [] && list[0] != "idle" && list[0] != "noidle"
    ensures Respond(s, list, registry, handle) == (s, "")
  {
  }

  /** `noidle` first ends idling and the whole list runs. */
  lemma NoidleRuns(s: Session, list: seq<string>, registry: seq<Entry>, handle: Handler)
    requires list != [] && list[0] == "noidle"
    ensures !Respond(s, list, registry, handle).0.idle
    ensures Respond(s, list, registry, handle).1 == BatchOutput(list, Exec(registry, handle))
  {
  }

  /** `idle` with changes pending, as written: the changes are announced and
      then the emptied list is run, which writes a second `OK`. */
  lemma IdleWithChangesAsWritten(s: Session, registry: seq<Entry>, handle: Handler)
    requires s.pending != []
    ensures Respond(s, ["idle"], registry, handle) == (Session(false, []), ChangedText(s.pending) + "OK\n")
  {
    var replies := Replies([], Exec(registry, handle));
    assert replies == [];
    assert Framed(Accumulated(replies[..Executed(replies)])) == ["OK\n"];
    assert BatchOutput([], Exec(registry, handle)) == "OK\n";
  }

  /** The intended handling: a list that is empty once `idle` is removed is
      not run. */
  function RespondIntended(s: Session, list: seq<string>, registry: seq<Entry>, handle: Handler): (Session, string) {
    if list != [] && list[0] == "idle" && s.pending != [] && |list| == 1 then (Session(false, []), ChangedText(s.pending))
    else Respond(s, list, registry, handle)
  }

  /** With the intended handling the answer to `idle` with changes pending
      is exactly one `changed:` block with one `OK`. */
  lemma IdleWithChangesIntended(s: Session, registry: seq<Entry>, handle: Handler)
    requires s.pending != []
    ensures RespondIntended(s, ["idle"], registry, handle) == (Session(false, []), ChangedText(s.pending))
    ensures forall list :: |list| != 1 || list[0] != "idle" ==>
              RespondIntended(s, list, registry, handle) == Respond(s, list, registry, handle)
  {
  }

  /** Regrouping the text written in one pass. Stated on its own, because
      proving it inside `Serve` costs more than the rest of that method. */
  lemma Associative(a: string, b: string, c: string)
    ensures (a + b) + c == a + (b + c)
  {
  }

  /** One connection of the handler: its idle state, the pending changes, the
      unread input and the text written to the client. */
  class Connection {
    const registry: seq<Entry>
    const handle: Handler
    var idle: bool
    var pending: seq<SubsystemEvent>
    var input: seq<string>
    var written: string

    predicate Valid()
      reads this
    {
      Settled(Session(idle, pending))
    }

    /** A new connection is active, has nothing pending and has sent the
        greeting. */
    constructor (registry: seq<Entry>, handle: Handler, input: seq<string>)
      ensures Valid() && !idle && pending == []
      ensures this.registry == registry && this.handle == handle && this.input == input
      ensures written == "OK MPD 0.21.11\n"
    {
      this.registry := registry;
      this.handle := handle;
      this.idle := false;
      this.pending := [];
      this.input := input;
      this.written := "OK MPD 0.21.11\n";
    }

    /** `send_subsystem_changed`: announces the pending changes, clears them
        and leaves idle. */
    method SendSubsystemChanged()
      modifies this`pending, this`idle, this`written
      ensures written == old(written) + ChangedText(old(pending))
      ensures pending == [] && !idle
    {
      var names := Names(SortedDedup(pending));
      written := written + ("changed: " + Join(names, ", ") + "\nOK\n");
      pending := [];
      idle := false;
    }

    /** `get_cmd`: the next line, trimmed; "" once the input is exhausted. */
    method GetCmd() returns (command: string)
      modifies this`input
      ensures old(input) == [] ==> command == "" && input == []
      ensures old(input) != [] ==> command == Trim(old(input)[0]) && input == old(input)[1..]
    {
      if input == [] {
        command := "";
      } else {
        command := Trim(input[0]);
        input := input[1..];
      }
    }

    /** `get_command_list`, with the line read inside the loop stored in the
        variable its guard tests. */
    method GetCommandList() returns (list: seq<string>)
      requires ListTerminated(input)
      modifies this`input
      ensures list == CommandListOf(old(input)).0
      ensures input == old(input)[CommandListOf(old(input)).1..]
    {
      ghost var lines := input;
      list := [];
      var command := GetCmd();
      if command == ListStart {
        ghost var k := FirstEnd(lines, 1);
        ghost var used := 1;
        while command != ListEnd
          invariant 1 <= used <= k + 1 && input == lines[used..]
          invariant list == TrimAll(lines[1..if used <= k then used else k])
          invariant command == ListEnd <==> used == k + 1
          decreases k + 1 - used
        {
          command := GetCmd();
          if command != ListEnd {
            TrimAllExtend(lines, 1, used);
            list := list + [command];
          }
          used := used + 1;
        }
      } else {
        list := [command];
      }
    }

    /** The first part of a pass of `handle_client`: an event taken from the
        bus is recorded, and announced at once when the client is idle. */
    method TakeEvent(event: Option<SubsystemEvent>)
      requires Valid()
      modifies this`pending, this`idle, this`written
      ensures Valid()
      ensures Session(idle, pending) == Receive(Session(old(idle), old(pending)), event).0
      ensures written == old(written) + Receive(Session(old(idle), old(pending)), event).1
    {
      if event.Some? {
        pending := pending + [event.value];
        if idle {
          SendSubsystemChanged();
        }
      }
    }

    /** The second part of a pass: a command list is handled according to
        its first command and the idle state. */
    method Serve(list: seq<string>)
      requires Valid()
      modifies this`pending, this`idle, this`written
      ensures Valid()
      ensures Session(idle, pending) == Respond(Session(old(idle), old(pending)), list, registry, handle).0
      ensures written == old(written) + Respond(Session(old(idle), old(pending)), list, registry, handle).1
    {
      RespondKeepsSettled(Session(idle, pending), list, registry, handle);
      ghost var before := written;
      ghost var waiting := pending;
      var commands := list;
      if commands != [] {
        var first := commands[0];
        if first == "idle" {
          if pending != [] {
            SendSubsystemChanged();
          } else {
            idle := true;
          }
          commands := commands[1..];
        } else if first == "noidle" {
          idle := false;
        }
        if !idle {
          var out, ran := RunBatch(commands, Exec(registry, handle));
          written := written + out;
          if first == "idle" {
            Associative(before, ChangedText(waiting), out);
          }
        }
      }
    }

    /** One pass of the loop of `handle_client`: take at most one event from
        the bus, then read one command list and handle it. */
    method Step(event: Option<SubsystemEvent>)
      requires Valid() && ListTerminated(input)
      modifies this`idle, this`pending, this`input, this`written
      ensures Valid()
      ensures Session(idle, pending) ==
              Respond(Receive(Session(old(idle), old(pending)), event).0, CommandListOf(old(input)).0, registry, handle).0
      ensures written == old(written) + Receive(Session(old(idle), old(pending)), event).1 +
              Respond(Receive(Session(old(idle), old(pending)), event).0, CommandListOf(old(input)).0, registry, handle).1
      ensures input == old(input)[CommandListOf(old(input)).1..]
    {
      TakeEvent(event);
      var list := GetCommandList();
      Serve(list);
    }
  }
}
