/** Splitting one protocol line into its verb and its argument, as both
    connection handlers do it (src/mpd/mod.rs:251-260, src/mpd.rs:158-169):
    the verb is the first whitespace-delimited token, and the argument is the
    first capture group of the pattern `\s+"?([^"]*)"?`. */
module MpdLine {
  import opened Base
  import opened Text

  /** The longest prefix without whitespace. */
  function TakeWord(s: string): (r: string)
    ensures |r| <= |s| && r == s[..|r|] && NoSpace(r)
    ensures |r| == |s| || IsSpace(s[|r|])
  {
    if s == [] || IsSpace(s[0]) then [] else [s[0]] + TakeWord(s[1..])
  }

  /** `split_whitespace().next().unwrap_or("")`. */
  function Verb(line: string): (r: string)
    ensures NoSpace(r) && |r| <= |TrimStart(line)| <= |line|
    ensures r == TrimStart(line)[..|r|]
    ensures |r| == |TrimStart(line)| || IsSpace(TrimStart(line)[|r|])
  {
    TakeWord(TrimStart(line))
  }

  /** Index of the first whitespace character, if any. */
  function FirstSpace(s: string): (r: Option<nat>)
    ensures r.None? <==> NoSpace(s)
    ensures r.Some? ==> r.value < |s| && IsSpace(s[r.value]) && NoSpace(s[..r.value])
  {
    if s == [] then None
    else if IsSpace(s[0]) then Some(0)
    else match FirstSpace(s[1..]) {
      case None => None
      case Some(i) => Some(i + 1)
    }
  }

  /** The capture of `\s+"?([^"]*)"?` in its leftmost match: the pattern first
      matches at the first whitespace character; `\s+` takes the whole run,
      `"?` one optional quote, and the group everything up to the next quote
      or the end of the line. No match means no whitespace at all. */
  function Argument(line: string): (r: Option<string>)
    ensures r.None? <==> NoSpace(line)
    ensures r.Some? ==> '"' !in r.value
  {
    match FirstSpace(line) {
      case None => None
      case Some(i) =>
        var rest := TrimStart(line[i..]);
        var unquoted := if rest != [] && rest[0] == '"' then rest[1..] else rest;
        Some(TakeUntil(unquoted, '"'))
    }
  }

  lemma {:induction false} TakeWordThenSpace(v: string, tail: string)
    requires NoSpace(v)
    requires tail == [] || IsSpace(tail[0])
    ensures TakeWord(v + tail) == v
  {
    if v != [] {
      assert (v + tail)[1..] == v[1..] + tail;
      TakeWordThenSpace(v[1..], tail);
    }
  }

  lemma {:induction false} FirstSpaceAfterWord(v: string, tail: string)
    requires NoSpace(v)
    requires tail != [] && IsSpace(tail[0])
    ensures FirstSpace(v + tail) == Some(|v|)
  {
    if v != [] {
      assert (v + tail)[1..] == v[1..] + tail;
      FirstSpaceAfterWord(v[1..], tail);
    }
  }

  /** The verb of `verb argument` is `verb`, whatever the argument. */
  lemma VerbOfCommand(verb: string, arg: string)
    requires verb != [] && NoSpace(verb)
    ensures Verb(verb) == verb
    ensures Verb(verb + " " + arg) == verb
  {
    assert TrimStart(verb) == verb;
    assert TrimStart(verb + " " + arg) == verb + " " + arg;
    TakeWordThenSpace(verb, []);
    assert verb + [] == verb;
    TakeWordThenSpace(verb, " " + arg);
    assert verb + " " + arg == verb + (" " + arg);
  }

  /** The argument of a line made of a word, one space and a tail. */
  lemma {:induction false} ArgumentAfterWord(verb: string, tail: string)
    requires NoSpace(verb)
    ensures Argument(verb + " " + tail) == Some(
      var rest := TrimStart(tail);
      TakeUntil(if rest != [] && rest[0] == '"' then rest[1..] else rest, '"'))
  {
    var line := verb + " " + tail;
    assert line == verb + (" " + tail);
    FirstSpaceAfterWord(verb, " " + tail);
    assert line[|verb|..] == " " + tail;
    assert (" " + tail)[1..] == tail;
  }

  /** A bare argument after one space is captured exactly when it neither
      starts with whitespace nor holds a quote. */
  lemma BareArgument(verb: string, arg: string)
    requires NoSpace(verb)
    requires '"' !in arg
    requires arg == [] || !IsSpace(arg[0])
    ensures Argument(verb + " " + arg) == Some(arg)
  {
    ArgumentAfterWord(verb, arg);
    assert TrimStart(arg) == arg;
    TakeUntilThen(arg, '"', []);
    assert arg + [] == arg;
  }

  /** What the capture group takes from a quoted tail. */
  lemma QuotedTail(arg: string)
    requires '"' !in arg
    ensures var rest := TrimStart(['"'] + arg + ['"']);
            TakeUntil(if rest != [] && rest[0] == '"' then rest[1..] else rest, '"') == arg
  {
    var tail := ['"'] + arg + ['"'];
    assert TrimStart(tail) == tail;
    assert tail[1..] == arg + ['"'];
    TakeUntilThen(arg, '"', ['"']);
  }

  /** A quoted argument is captured without its quotes, spaces included. */
  lemma QuotedArgument(verb: string, arg: string)
    requires NoSpace(verb)
    requires '"' !in arg
    ensures Argument(verb + " " + (['"'] + arg + ['"'])) == Some(arg)
  {
    ArgumentAfterWord(verb, ['"'] + arg + ['"']);
    QuotedTail(arg);
  }
}
