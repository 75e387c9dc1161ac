/** The older request handler of src/mpd.rs: a verb table built per
    connection, command lists opened by `command_list_begin`, and built-in
    replies for verbs the table does not hold. */
module MpdLegacy {
  import opened Base
  import opened Text
  import opened MpdLine
  import opened Framing
  import C = MpdCommands
  import H = MpdHandler

  /** The inserts `commands()` performs, in order. */
  const Inserts: seq<(string, C.CommandKind)> := [
    ("status", C.Status), ("stats", C.Stats), ("listplaylists", C.ListPlaylists),
    ("listplaylistinfo", C.ListPlaylistInfo), ("add", C.Add), ("addid", C.Add),
    ("play", C.Play), ("playid", C.Play), ("pause", C.Pause), ("next", C.Next),
    ("prev", C.Prev), ("clear", C.Clear), ("playlistinfo", C.PlaylistInfo),
    ("plchanges", C.PlaylistInfo), ("currentsong", C.CurrentSong), ("setvol", C.SetVol),
    ("volume", C.Volume), ("deleteid", C.DeleteId)]

  function Verbs(inserts: seq<(string, C.CommandKind)>): (verbs: seq<string>)
    ensures |verbs| == |inserts|
  {
    seq(|inserts|, i requires 0 <= i < |inserts| => inserts[i].0)
  }

  predicate DistinctVerbs(inserts: seq<(string, C.CommandKind)>) {
    forall i, j :: 0 <= i < j < |inserts| ==> inserts[i].0 != inserts[j].0
  }

  /** The map after performing the inserts in order; a later insert of the
      same verb replaces an earlier one. */
  function Inserted(inserts: seq<(string, C.CommandKind)>): map<string, C.CommandKind> {
    if inserts == [] then map[]
    else Inserted(inserts[..|inserts| - 1])[inserts[|inserts| - 1].0 := inserts[|inserts| - 1].1]
  }

  /** Exactly the inserted verbs are keys, each bound to its command, and
      distinct verbs give one key each. */
  lemma {:induction false} InsertedContents(inserts: seq<(string, C.CommandKind)>)
    ensures forall v :: v in Inserted(inserts) <==> v in Verbs(inserts)
    ensures DistinctVerbs(inserts) ==> |Inserted(inserts)| == |inserts|
    ensures DistinctVerbs(inserts) ==> forall i :: 0 <= i < |inserts| ==>
              inserts[i].0 in Inserted(inserts) && Inserted(inserts)[inserts[i].0] == inserts[i].1
  {
    if inserts != [] {
      var n := |inserts| - 1;
      var front := inserts[..n];
      InsertedContents(front);
      assert Verbs(inserts) == Verbs(front) + [inserts[n].0];
      if DistinctVerbs(inserts) {
        assert DistinctVerbs(front);
        assert inserts[n].0 !in Verbs(front);
        forall i | 0 <= i < |inserts|
          ensures inserts[i].0 in Inserted(inserts) && Inserted(inserts)[inserts[i].0] == inserts[i].1
        {
          assert Verbs(inserts)[i] == inserts[i].0;
          if i < n { assert front[i] == inserts[i]; }
        }
      }
    }
  }

  /** Two runs of inserts with distinct verbs, sharing none, have distinct
      verbs together. */
  lemma DistinctConcat(a: seq<(string, C.CommandKind)>, b: seq<(string, C.CommandKind)>)
    requires DistinctVerbs(a) && DistinctVerbs(b)
    requires forall i, j :: 0 <= i < |a| && 0 <= j < |b| ==> a[i].0 != b[j].0
    ensures DistinctVerbs(a + b)
  {
    forall i, j | 0 <= i < j < |a + b| ensures (a + b)[i].0 != (a + b)[j].0 {
      if j < |a| {
        assert (a + b)[i] == a[i] && (a + b)[j] == a[j];
      } else if i < |a| {
        assert (a + b)[i] == a[i] && (a + b)[j] == b[j - |a|];
      } else {
        assert (a + b)[i] == b[i - |a|] && (a + b)[j] == b[j - |a|];
      }
    }
  }

  lemma FrontDistinct()
    ensures DistinctVerbs(Inserts[..9])
  {
  }

  lemma BackDistinct()
    ensures DistinctVerbs(Inserts[9..])
  {
  }

  lemma FrontBackDisjoint()
    ensures forall i, j :: 0 <= i < 9 && 0 <= j < 9 ==> Inserts[..9][i].0 != Inserts[9..][j].0
  {
  }

  /** The eighteen verbs of `commands()` are distinct. */
  lemma InsertsDistinct()
    ensures DistinctVerbs(Inserts)
  {
    FrontDistinct();
    BackDistinct();
    FrontBackDisjoint();
    DistinctConcat(Inserts[..9], Inserts[9..]);
    assert Inserts[..9] + Inserts[9..] == Inserts;
  }

  lemma Bound(i: nat)
    requires i < |Inserts|
    ensures Inserts[i].0 in Inserted(Inserts) && Inserted(Inserts)[Inserts[i].0] == Inserts[i].1
  {
    InsertsDistinct();
    InsertedContents(Inserts);
  }

  /** The successive `insert` calls of `commands()`, run on a fresh map. */
  method InsertAll(inserts: seq<(string, C.CommandKind)>) returns (m: map<string, C.CommandKind>)
    ensures m == Inserted(inserts)
  {
    m := map[];
    for k := 0 to |inserts|
      invariant m == Inserted(inserts[..k])
    {
      assert inserts[..k + 1][..k] == inserts[..k];
      m := m[inserts[k].0 := inserts[k].1];
    }
    assert inserts[..|inserts|] == inserts;
  }

  /** `commands()`: one key per insert, each bound to the command inserted
      for it. */
  function Commands(): (m: map<string, C.CommandKind>)
    ensures |m| == |Inserts| == 18
  {
    InsertsDistinct();
    InsertedContents(Inserts);
    Inserted(Inserts)
  }

  /** The table answers to exactly the inserted verbs, each with its own
      command. */
  lemma CommandsTable()
    ensures forall v :: v in Commands() <==> v in Verbs(Inserts)
    ensures forall i :: 0 <= i < |Inserts| ==>
              Inserts[i].0 in Commands() && Commands()[Inserts[i].0] == Inserts[i].1
  {
    InsertsDistinct();
    InsertedContents(Inserts);
  }

  /** Two entries of the table that insert the same command leave their two
      verbs bound to it. */
  lemma SharedCommand(i: nat, j: nat)
    requires i < |Inserts| && j < |Inserts| && Inserts[i].1 == Inserts[j].1
    ensures var m := Commands();
            Inserts[i].0 in m && Inserts[j].0 in m && m[Inserts[i].0] == m[Inserts[j].0] == Inserts[i].1
  {
    Bound(i); Bound(j);
  }

  /** Three pairs of verbs share a command: `add`/`addid`, `play`/`playid`
      and `playlistinfo`/`plchanges`. */
  lemma Aliases()
    ensures "add" in Commands() && "addid" in Commands() && Commands()["add"] == Commands()["addid"] == C.Add
    ensures "play" in Commands() && "playid" in Commands() && Commands()["play"] == Commands()["playid"] == C.Play
    ensures "playlistinfo" in Commands() && "plchanges" in Commands() &&
            Commands()["playlistinfo"] == Commands()["plchanges"] == C.PlaylistInfo
  {
    SharedCommand(4, 5); SharedCommand(6, 7); SharedCommand(12, 13);
  }

  /** The commands that src/mpd.rs answers with built-in replies instead. */
  predicate IsBuiltInKind(kind: C.CommandKind) {
    kind.UrlHandlers? || kind.Outputs? || kind.Decoders? || kind.TagTypes?
  }

  lemma InsertsNotBuiltIn()
    ensures forall i :: 0 <= i < |Inserts| ==> !IsBuiltInKind(Inserts[i].1)
  {
  }

  /** No verb of the table runs one of the commands the built-in replies
      stand in for. */
  lemma NoBuiltInCommand()
    ensures forall v :: v in Commands() ==> !IsBuiltInKind(Commands()[v])
  {
    CommandsTable();
    InsertsNotBuiltIn();
    forall v | v in Commands() ensures !IsBuiltInKind(Commands()[v]) {
      var i :| 0 <= i < |Inserts| && Verbs(Inserts)[i] == v;
      assert Commands()[v] == Inserts[i].1;
    }
  }

  /** A verb not inserted is not in the table. */
  lemma Absent(v: string)
    requires forall i :: 0 <= i < |Inserts| ==> Inserts[i].0 != v
    ensures v !in Commands()
  {
    CommandsTable();
  }

  /** The lines given built-in replies are not verbs of the table, and
      neither is `stop`, which the `commands` listing advertises. */
  lemma BuiltInsNotRegistered()
    ensures forall b :: b in BuiltIns ==> b !in Commands()
    ensures "stop" !in Commands()
  {
    Absent("stop");
    Absent("urlhandlers");
    Absent("outputs");
    Absent("decoders");
    Absent("tagtypes");
    Absent("commands");
  }

  // ----- built-in replies -----

  /** The lines `do_command` answers without the table. */
  const BuiltIns := ["urlhandlers", "outputs", "decoders", "tagtypes", "commands"]

  const CommandsListing := ["command: play", "command: stop", "command: pause",
                            "command: status", "command: stats", "command: decoders"]

  const TagTypesListing := ["tagtype: Artist", "tagtype: ArtistSort", "tagtype: Album",
                            "tagtype: AlbumSort", "tagtype: AlbumArtist", "tagtype: AlbumArtistSort",
                            "tagtype: Title", "tagtype: Name", "tagtype: Genre", "tagtype: Date"]

  /** The reply to a command whose verb is not in the table: a fixed listing
      for the whole lines `urlhandlers`, `outputs`, `decoders`, `tagtypes`
      and `commands`, nothing for anything else (`lsinfo` included). */
  function Fallback(command: string): (lines: seq<string>)
    ensures lines != [] <==> command in BuiltIns
  {
    if command == "urlhandlers" then ["handler: spotify:"]
    else if command == "outputs" then
      ["outputsoutputid: 0", "outputname: default detected output", "plugin: alsa",
       "outputenabled: 1", "attribute: allowed_formats=", "attribute: dop=0"]
    else if command == "decoders" then
      ["plugin: mad", "suffix: mp3", "suffix: mp2", "mime_type: audio/mpeg",
       "plugin: mpcdec", "suffix: mpc"]
    else if command == "tagtypes" then TagTypesListing
    else if command == "commands" then CommandsListing
    else []
  }

  /** No line of a built-in reply is an error. */
  lemma FallbackNeverAcks(command: string)
    ensures !HasAck(Fallback(command))
  {
    var lines := Fallback(command);
    forall i | 0 <= i < |lines| ensures !StartsWith(lines[i], "ACK") {
      assert lines[i][0] != 'A';
    }
  }

  /** Only the built-in lines get a listing, none of its lines is an error,
      and the listings have the sizes the handler writes. */
  lemma FallbackReplies(command: string)
    ensures Fallback(command) != [] <==> command in BuiltIns
    ensures !HasAck(Fallback(command))
    ensures command == "urlhandlers" ==> Fallback(command) == ["handler: spotify:"]
    ensures command == "outputs" || command == "decoders" ==> |Fallback(command)| == 6
    ensures command == "tagtypes" ==> (|Fallback(command)| == 10 &&
              forall i :: 0 <= i < 10 ==> StartsWith(Fallback(command)[i], "tagtype: "))
    ensures command == "commands" ==> Fallback(command) == CommandsListing
  {
    FallbackNeverAcks(command);
  }

  // ----- dispatch -----

  /** `do_command`: the table entry named by the verb runs on the captured
      argument; a verb without an entry gets the built-in reply. */
  function DoCommand(commands: map<string, C.CommandKind>, handle: H.Handler, command: string): (r: C.Reply)
    ensures Verb(command) !in commands ==> r.Ok? && (r.value != [] <==> command in BuiltIns)
  {
    var verb := Verb(command);
    if verb in commands then handle(commands[verb], Argument(command)) else Ok(Fallback(command))
  }

  /** A verb of the table followed by a bare argument runs its command on that
      argument. */
  lemma DispatchesTableVerb(commands: map<string, C.CommandKind>, handle: H.Handler, verb: string, arg: string)
    requires verb in commands && verb != "" && NoSpace(verb)
    requires '"' !in arg && (arg == "" || !IsSpace(arg[0]))
    ensures DoCommand(commands, handle, verb + " " + arg) == handle(commands[verb], Some(arg))
  {
    VerbOfCommand(verb, arg);
    BareArgument(verb, arg);
  }

  /** A verb outside the table never reaches a command, and its reply never
      stops a batch. */
  lemma UnknownVerbFallsBack(commands: map<string, C.CommandKind>, handle: H.Handler, command: string)
    requires Verb(command) !in commands
    ensures DoCommand(commands, handle, command) == Ok(Fallback(command))
    ensures !HasAck(Contributed(DoCommand(commands, handle, command)))
  {
    FallbackReplies(command);
  }

  /** Without a table entry, `commands` gets its fixed listing, which
      advertises `stop`. */
  lemma CommandsListed(commands: map<string, C.CommandKind>, handle: H.Handler)
    requires "commands" !in commands
    ensures DoCommand(commands, handle, "commands") == Ok(CommandsListing)
    ensures "command: stop" in CommandsListing
  {
    BareWord("commands");
    BareVerbFallsBack(commands, handle, "commands");
    FallbackOfCommands();
  }

  lemma BareWord(verb: string)
    requires verb == "commands" || verb == "stop"
    ensures verb != [] && NoSpace(verb)
  {
  }

  lemma FallbackOfCommands()
    ensures Fallback("commands") == CommandsListing
    ensures "command: stop" in CommandsListing
  {
    assert CommandsListing[1] == "command: stop";
  }

  /** A bare word without a table entry gets the built-in reply. */
  lemma BareVerbFallsBack(commands: map<string, C.CommandKind>, handle: H.Handler, verb: string)
    requires verb !in commands && verb != [] && NoSpace(verb)
    ensures DoCommand(commands, handle, verb) == Ok(Fallback(verb))
  {
    VerbOfCommand(verb, "");
  }

  /** Without a table entry, `stop` has no built-in reply either, so it gets
      an empty reply. */
  lemma StopNotServed(commands: map<string, C.CommandKind>, handle: H.Handler)
    requires "stop" !in commands
    ensures DoCommand(commands, handle, "stop") == Ok([])
  {
    BareWord("stop");
    BareVerbFallsBack(commands, handle, "stop");
    assert Fallback("stop") == [];
  }

  /** Command execution against a fixed table. */
  function LegacyExec(commands: map<string, C.CommandKind>, handle: H.Handler): string -> C.Reply {
    command => DoCommand(commands, handle, command)
  }

  // ----- reading -----

  const ListBegin := "command_list_begin"

  lemma BeginTrimmed()
    ensures Trim(ListBegin) == ListBegin
  {
    assert !IsSpace(ListBegin[0]) && !IsSpace(ListBegin[|ListBegin| - 1]);
  }

  /** Reading never hangs: an opened list is closed later on (`read_line`
      yields "" forever at the end of the input). */
  predicate ListClosed(lines: seq<string>) {
    lines == [] || Trim(lines[0]) != ListBegin || H.HasEnd(lines, 1)
  }

  /** The command list one pass of `handle_client` reads from the raw lines
      (`read_line` keeps the line terminator) and how many lines it consumes:
      a framed list trimmed line by line, or one non-empty line other than
      `idle`, trimmed. */
  function ReadListOf(lines: seq<string>): (r: (seq<string>, nat))
    requires ListClosed(lines)
    ensures r.1 <= |lines|
  {
    if lines == [] then ([], 0)
    else if Trim(lines[0]) == ListBegin then
      var k := H.FirstEnd(lines, 1);
      (H.TrimAll(lines[1..k]), k + 1)
    else if |lines[0]| > 0 && Trim(lines[0]) != "idle" then ([Trim(lines[0])], 1)
    else ([], 1)
  }

  /** A framed batch is read back exactly, the lines after it left for the
      next pass. */
  lemma ReadListRoundTrip(cmds: seq<string>, rest: seq<string>)
    requires forall i :: 0 <= i < |cmds| ==> Trim(cmds[i]) == cmds[i] && cmds[i] != H.ListEnd
    ensures ListClosed([ListBegin] + cmds + [H.ListEnd] + rest)
    ensures ReadListOf([ListBegin] + cmds + [H.ListEnd] + rest) == (cmds, |cmds| + 2)
  {
    var lines := [ListBegin] + cmds + [H.ListEnd] + rest;
    BeginTrimmed();
    H.MarkersTrimmed();
    assert lines[|cmds| + 1] == H.ListEnd;
    H.HasEndBefore(lines, 1, |cmds| + 1);
    forall j | 1 <= j < |cmds| + 1 ensures Trim(lines[j]) != H.ListEnd {
      assert lines[j] == cmds[j - 1];
    }
    assert H.FirstEnd(lines, 1) == |cmds| + 1;
    assert H.TrimAll(lines[1..|cmds| + 1]) == cmds;
  }

  /** Outside a list, `idle` and empty lines are read and dropped; any other
      line is a list of its own. */
  lemma ReadSingle(line: string, rest: seq<string>)
    requires Trim(line) != ListBegin
    ensures ListClosed([line] + rest)
    ensures Trim(line) == "idle" || line == "" ==> ReadListOf([line] + rest) == ([], 1)
    ensures Trim(line) != "idle" && line != "" ==> ReadListOf([line] + rest) == ([Trim(line)], 1)
  {
  }

  /** One connection of the older handler: its verb table, the unread input
      and the text written to the client. */
  class LegacyConnection {
    const handle: H.Handler
    var commands: map<string, C.CommandKind>
    var input: seq<string>
    var written: string

    /** `new`: the table starts empty. */
    constructor (handle: H.Handler, input: seq<string>)
      ensures this.handle == handle && this.input == input
      ensures commands == map[] && written == ""
    {
      this.handle := handle;
      this.input := input;
      this.commands := map[];
      this.written := "";
    }

    /** The start of `handle_client`: installs the table and greets. */
    method Open()
      modifies this`commands, this`written
      ensures commands == Commands() && |commands| == 18
      ensures written == old(written) + "OK MPD 0.21.11\n"
    {
      commands := InsertAll(Inserts);
      written := written + "OK MPD 0.21.11\n";
    }

    /** `read_line`: the next raw line; "" once the input is exhausted. */
    method ReadLine() returns (response: string)
      modifies this`input
      ensures old(input) == [] ==> response == "" && input == []
      ensures old(input) != [] ==> response == old(input)[0] && input == old(input)[1..]
    {
      if input == [] {
        response := "";
      } else {
        response := input[0];
        input := input[1..];
      }
    }

    /** The reading half of a pass of `handle_client`. */
    method ReadCommandList() returns (list: seq<string>)
      requires ListClosed(input)
      modifies this`input
      ensures list == ReadListOf(old(input)).0
      ensures input == old(input)[ReadListOf(old(input)).1..]
    {
      ghost var lines := input;
      list := [];
      var response := ReadLine();
      if Trim(response) == ListBegin {
        ghost var k := H.FirstEnd(lines, 1);
        ghost var used := 1;
        while Trim(response) != H.ListEnd
          invariant 1 <= used <= k + 1 && input == lines[used..]
          invariant list == H.TrimAll(lines[1..if used <= k then used else k])
          invariant Trim(response) == H.ListEnd <==> used == k + 1
          decreases k + 1 - used
        {
          response := ReadLine();
          if Trim(response) != H.ListEnd {
            H.TrimAllExtend(lines, 1, used);
            list := list + [Trim(response)];
          }
          used := used + 1;
        }
      } else if |response| > 0 && Trim(response) != "idle" {
        list := [Trim(response)];
      }
    }

    /** One pass of the loop of `handle_client`: read a command list and, when
        it is not empty, run it and write the framed output. */
    method Step()
      requires ListClosed(input)
      modifies this`input, this`written
      ensures input == old(input)[ReadListOf(old(input)).1..]
      ensures ReadListOf(old(input)).0 == [] ==> written == old(written)
      ensures ReadListOf(old(input)).0 != [] ==>
                written == old(written) + BatchOutput(ReadListOf(old(input)).0, LegacyExec(commands, handle))
    {
      var list := ReadCommandList();
      if |list| > 0 {
        var out, ran := RunBatch(list, LegacyExec(commands, handle));
        written := written + out;
      }
    }
  }
}
