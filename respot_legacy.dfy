/** The older player bridge (src/respot.rs): its own directive and event
    enums, without `Pause` and without `Stopped`/`Paused` events, and a worker
    with the same `active` flag and end-of-track polling. The session call log,
    the polled task and base-62 validity are those of `PlayerWorkers`. */
module RespotLegacy {
  import opened Base
  import W = PlayerWorkers

  datatype PlayerCommand = Load(id: string) | Seek(position: u32) | NextTrack | PreviousTrack | Stop | Play

  datatype PlayerEvent = FinishedTrack | Playing

  function EventsFor(command: PlayerCommand): (events: seq<PlayerEvent>)
  {
    if command.Play? then [Playing] else []
  }

  function EventsForAll(commands: seq<PlayerCommand>): (events: seq<PlayerEvent>)
    ensures forall i :: 0 <= i < |events| ==> events[i] == Playing
    ensures |events| <= |commands|
  {
    if commands == [] then [] else EventsForAll(commands[..|commands| - 1]) + EventsFor(commands[|commands| - 1])
  }

  predicate AllLoadsValid(commands: seq<PlayerCommand>) {
    forall i :: 0 <= i < |commands| ==> commands[i].Load? ==> W.IsBase62Id(commands[i].id)
  }

  class PlayerWorker {
    var active: bool
    var playTask: W.Task
    var events: seq<PlayerEvent>
    var calls: seq<W.PlayerCall>

    constructor ()
      ensures !active && playTask == W.NeverReady && events == [] && calls == []
    {
      active := false;
      playTask := W.NeverReady;
      events := [];
      calls := [];
    }

    /** `PlayerWorker::handle_event`: `Play` starts output and reports
        `Playing`, `Stop` halts silently, `Load` drops its future. */
    method HandleEvent(command: PlayerCommand)
      requires command.Load? ==> W.IsBase62Id(command.id)
      modifies this
      ensures playTask == old(playTask)
      ensures events == old(events) + EventsFor(command)
      ensures command.Play? ==> active && calls == old(calls) + [W.Resume]
      ensures command.Stop? ==> !active && calls == old(calls) + [W.Halt]
      ensures command.Load? ==> active == old(active) && calls == old(calls) + [W.LoadTrack(command.id, false, 0)]
      ensures (command.Seek? || command.NextTrack? || command.PreviousTrack?) ==>
                active == old(active) && calls == old(calls)
    {
      match command
      case Load(id) =>
        calls := calls + [W.LoadTrack(id, false, 0)];
      case Play =>
        calls := calls + [W.Resume];
        events := events + [Playing];
        active := true;
      case Stop =>
        calls := calls + [W.Halt];
        active := false;
      case _ =>
    }

    /** `handle_event` as evidently intended: the load's end-of-track future
        becomes the polled task. */
    method HandleEventIntended(command: PlayerCommand)
      requires command.Load? ==> W.IsBase62Id(command.id)
      modifies this
      ensures command.Load? ==> playTask == W.EndOfTrack(command.id)
      ensures !command.Load? ==> playTask == old(playTask)
      ensures events == old(events) + EventsFor(command)
      ensures command.Play? ==> active && calls == old(calls) + [W.Resume]
      ensures command.Stop? ==> !active && calls == old(calls) + [W.Halt]
      ensures command.Load? ==> active == old(active) && calls == old(calls) + [W.LoadTrack(command.id, false, 0)]
      ensures (command.Seek? || command.NextTrack? || command.PreviousTrack?) ==>
                active == old(active) && calls == old(calls)
    {
      HandleEvent(command);
      if command.Load? {
        playTask := W.EndOfTrack(command.id);
      }
    }

    /** The `play_task` branch of `poll`. */
    method PollTask(completion: W.Completion)
      modifies this
      ensures active == old(active) && calls == old(calls)
      ensures W.PollOutcome(old(playTask), completion) == W.Finished ==>
                events == old(events) + [FinishedTrack] && playTask == old(playTask)
      ensures W.PollOutcome(old(playTask), completion) == W.Canceled ==>
                events == old(events) && playTask == W.NeverReady
      ensures W.PollOutcome(old(playTask), completion) == W.NotReady ==>
                events == old(events) && playTask == old(playTask)
    {
      var outcome := W.PollOutcome(playTask, completion);
      if outcome == W.Finished {
        events := events + [FinishedTrack];
      } else if outcome == W.Canceled {
        playTask := W.NeverReady;
      }
    }
  }

  /** The worker's `poll` loop: only `Playing` events are ever sent, one per
      `Play` directive. */
  method Run(commands: seq<PlayerCommand>, completions: seq<W.Completion>) returns (events: seq<PlayerEvent>)
    requires |completions| == |commands|
    requires AllLoadsValid(commands)
    ensures events == EventsForAll(commands)
    ensures forall i :: 0 <= i < |events| ==> events[i] == Playing
  {
    var worker := new PlayerWorker();
    var i := 0;
    while i < |commands|
      invariant 0 <= i <= |commands|
      invariant worker.playTask == W.NeverReady
      invariant worker.events == EventsForAll(commands[..i])
    {
      worker.HandleEvent(commands[i]);
      worker.PollTask(completions[i]);
      assert commands[..i + 1][..i] == commands[..i];
      i := i + 1;
    }
    assert commands[..i] == commands;
    events := worker.events;
  }

  /** A track is loaded and played and the session then reports its end: as
      written, no `FinishedTrack` reaches the queue. */
  method EndOfTrackAsWritten(id: string) returns (events: seq<PlayerEvent>)
    requires W.IsBase62Id(id)
    ensures events == [Playing]
  {
    var worker := new PlayerWorker();
    worker.HandleEvent(Load(id));
    worker.HandleEvent(Play);
    worker.PollTask(W.Finished);
    events := worker.events;
  }

  /** The same scenario with the load future kept: the end of the track is
      reported once, after `Playing`. */
  method EndOfTrackIntended(id: string) returns (events: seq<PlayerEvent>)
    requires W.IsBase62Id(id)
    ensures events == [Playing, FinishedTrack]
  {
    var worker := new PlayerWorker();
    worker.HandleEventIntended(Load(id));
    worker.HandleEventIntended(Play);
    worker.PollTask(W.Finished);
    events := worker.events;
  }
}
