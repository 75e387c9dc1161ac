/** How a batch of MPD commands becomes one response (src/mpd/mod.rs
    `run_commands`/`has_error`; src/mpd.rs `execute_command` frames its batch
    the same way): replies are concatenated, the batch stops after the first
    command whose output brings in a line starting with `ACK`, failed
    commands contribute nothing, and `OK` is appended only when no line
    starts with `ACK`. */
module Framing {
  import opened Base
  import opened Text
  import opened MpdCommands

  /** Some output line starts with `ACK`. */
  predicate HasAck(lines: seq<string>) {
    exists i :: 0 <= i < |lines| && StartsWith(lines[i], "ACK")
  }

  /** `has_error`: scans the output and stops at the first `ACK` line. */
  method HasError(lines: seq<string>) returns (r: bool)
    ensures r <==> HasAck(lines)
  {
    for i := 0 to |lines|
      invariant forall j :: 0 <= j < i ==> !StartsWith(lines[j], "ACK")
    {
      if StartsWith(lines[i], "ACK") {
        return true;
      }
    }
    return false;
  }

  lemma HasAckAppend(a: seq<string>, b: seq<string>)
    ensures HasAck(a + b) <==> HasAck(a) || HasAck(b)
  {
    if HasAck(b) {
      var i :| 0 <= i < |b| && StartsWith(b[i], "ACK");
      assert (a + b)[|a| + i] == b[i];
    }
    if HasAck(a) {
      var i :| 0 <= i < |a| && StartsWith(a[i], "ACK");
      assert (a + b)[i] == a[i];
    }
    if HasAck(a + b) {
      var i :| 0 <= i < |a + b| && StartsWith((a + b)[i], "ACK");
      if i >= |a| { assert b[i - |a|] == (a + b)[i]; }
    }
  }

  /** What one command adds to the output: its lines, or nothing on error. */
  function Contributed(reply: Reply): seq<string> {
    if reply.Ok? then reply.value else []
  }

  /** The output after the given commands ran. */
  function Accumulated(replies: seq<Reply>): seq<string> {
    if replies == [] then [] else Accumulated(replies[..|replies| - 1]) + Contributed(replies[|replies| - 1])
  }

  lemma AccumulatedStep(replies: seq<Reply>, k: nat)
    requires k < |replies|
    ensures Accumulated(replies[..k + 1]) == Accumulated(replies[..k]) + Contributed(replies[k])
  {
    assert replies[..k + 1][..k] == replies[..k];
  }

  /** Output of an earlier prefix is a prefix of the output of a later one. */
  lemma {:induction false} AccumulatedGrows(replies: seq<Reply>, j: nat, k: nat)
    requires j <= k <= |replies|
    ensures exists rest :: Accumulated(replies[..k]) == Accumulated(replies[..j]) + rest
  {
    if j == k {
      assert Accumulated(replies[..k]) == Accumulated(replies[..j]) + [];
    } else {
      AccumulatedGrows(replies, j, k - 1);
      var rest :| Accumulated(replies[..k - 1]) == Accumulated(replies[..j]) + rest;
      AccumulatedStep(replies, k - 1);
      assert Accumulated(replies[..k]) == Accumulated(replies[..j]) + (rest + Contributed(replies[k - 1]));
    }
  }

  /** The replies the commands of a batch would give, in order. */
  function Replies(list: seq<string>, exec: string -> Reply): (replies: seq<Reply>)
    ensures |replies| == |list|
  {
    seq(|list|, i requires 0 <= i < |list| => exec(list[i]))
  }

  /** Number of commands a batch runs, counting from command `i` on. */
  function Ran(replies: seq<Reply>, i: nat): (n: nat)
    requires i <= |replies|
    ensures i <= n <= |replies|
    ensures n < |replies| ==> n > i && HasAck(Accumulated(replies[..n]))
    ensures forall k :: i < k < n ==> !HasAck(Accumulated(replies[..k]))
    decreases |replies| - i
  {
    if i == |replies| then i
    else if HasAck(Accumulated(replies[..i + 1])) then i + 1
    else Ran(replies, i + 1)
  }

  /** Number of commands a batch runs: up to and including the first whose
      output brings in an `ACK` line, or all of them. */
  function Executed(replies: seq<Reply>): (n: nat)
    ensures n <= |replies|
    ensures n < |replies| ==> n > 0 && HasAck(Accumulated(replies[..n]))
    ensures forall k :: 0 < k < n ==> !HasAck(Accumulated(replies[..k]))
  {
    Ran(replies, 0)
  }

  /** The response lines: `OK` is appended only when there is no `ACK` line. */
  function Framed(lines: seq<string>): (r: seq<string>)
    ensures HasAck(r) <==> HasAck(lines)
    ensures |r| >= |lines| && r[..|lines|] == lines
    ensures !HasAck(lines) ==> r == lines + ["OK\n"]
  {
    assert "OK\n"[..3][0] != "ACK"[0];
    assert !HasAck(["OK\n"]);
    HasAckAppend(lines, ["OK\n"]);
    if HasAck(lines) then lines else lines + ["OK\n"]
  }

  /** A batch runs exactly the commands up to the first one that makes the
      output carry an `ACK` line; later commands are never run. */
  lemma StopsAtFirstAck(replies: seq<Reply>, k: nat)
    requires k < |replies| && replies[k].Ok? && HasAck(replies[k].value)
    requires !HasAck(Accumulated(replies[..k]))
    ensures Executed(replies) == k + 1
    ensures HasAck(Framed(Accumulated(replies[..k + 1])))
    ensures Framed(Accumulated(replies[..k + 1])) == Accumulated(replies[..k + 1])
  {
    var n := Executed(replies);
    AccumulatedStep(replies, k);
    HasAckAppend(Accumulated(replies[..k]), Contributed(replies[k]));
    if n < k {
      AccumulatedGrows(replies, n, k);
      var rest :| Accumulated(replies[..k]) == Accumulated(replies[..n]) + rest;
      HasAckAppend(Accumulated(replies[..n]), rest);
    }
  }

  /** A batch in which no output line starts with `ACK` runs every command and
      ends with `OK`. */
  lemma CleanBatchEndsWithOk(replies: seq<Reply>)
    requires forall k :: 0 <= k < |replies| ==> !HasAck(Contributed(replies[k]))
    ensures Executed(replies) == |replies|
    ensures !HasAck(Accumulated(replies))
    ensures Framed(Accumulated(replies)) == Accumulated(replies) + ["OK\n"]
  {
    NoAckAccumulated(replies, |replies|);
    assert replies[..|replies|] == replies;
    if Executed(replies) < |replies| {
      NoAckAccumulated(replies, Executed(replies));
    }
  }

  lemma {:induction false} NoAckAccumulated(replies: seq<Reply>, k: nat)
    requires k <= |replies|
    requires forall j :: 0 <= j < |replies| ==> !HasAck(Contributed(replies[j]))
    ensures !HasAck(Accumulated(replies[..k]))
  {
    if k > 0 {
      NoAckAccumulated(replies, k - 1);
      AccumulatedStep(replies, k - 1);
      HasAckAppend(Accumulated(replies[..k - 1]), Contributed(replies[k - 1]));
    }
  }

  /** The text written for a batch. */
  function BatchOutput(list: seq<string>, exec: string -> Reply): (out: string)
    ensures list == [] ==> out == "OK\n"
  {
    var replies := Replies(list, exec);
    Join(Framed(Accumulated(replies[..Executed(replies)])), "\n")
  }

  /** `run_commands`: runs the batch, stopping after the first command that
      brings in an `ACK` line, and returns the text written to the client and
      the number of commands run. */
  method RunBatch(list: seq<string>, exec: string -> Reply) returns (out: string, ran: nat)
    ensures ran == Executed(Replies(list, exec))
    ensures out == BatchOutput(list, exec)
  {
    ghost var replies := Replies(list, exec);
    var output: seq<string> := [];
    var i := 0;
    while i < |list|
      invariant 0 <= i <= |list|
      invariant output == Accumulated(replies[..i])
      invariant Ran(replies, 0) == Ran(replies, i)
    {
      var result := exec(list[i]);
      AccumulatedStep(replies, i);
      if result.Ok? {
        output := output + result.value;
      }
      i := i + 1;
      var stop := HasError(output);
      if stop {
        break;
      }
    }
    ran := i;
    var error := HasError(output);
    if !error {
      output := output + ["OK\n"];
    }
    out := Join(output, "\n");
  }
}
