/** The player bridge's worker (src/respot/player_worker.rs): it owns the
    streaming session, turns directives into session calls, tracks whether
    playback is active and reports transport events. The session is modelled
    as the log of calls made on it, the event channel as the log of events
    sent on it. */
module PlayerWorkers {
  import opened Base
  import opened Respot

  /** A call made on the streaming session (librespot's `Player`). */
  datatype PlayerCall = LoadTrack(id: string, startPlaying: bool, positionMs: nat) | Resume | Suspend | Halt

  /** The future polled for end of track. `NeverReady` is
      `futures::future::pending()`, which never completes; `EndOfTrack` is the
      future returned by a load, which completes when that track ends. */
  datatype Task = NeverReady | EndOfTrack(id: string)

  /** What the session would report for the polled future at this moment. */
  datatype Completion = NotReady | Finished | Canceled

  predicate IsBase62Digit(c: char) {
    '0' <= c <= '9' || 'a' <= c <= 'z' || 'A' <= c <= 'Z'
  }

  /** The ids `SpotifyId::from_base62` accepts: 22 base-62 digits. */
  predicate IsBase62Id(id: string) {
    |id| == 22 && forall i :: 0 <= i < |id| ==> IsBase62Digit(id[i])
  }

  /** Polling a future: `pending()` reports nothing whatever the session does. */
  function PollOutcome(task: Task, completion: Completion): (c: Completion)
    ensures task == NeverReady ==> c == NotReady
    ensures task != NeverReady ==> c == completion
  {
    if task == NeverReady then NotReady else completion
  }

  /** The events `handle_event` sends for a directive. */
  function EventsFor(command: PlayerCommand): (events: seq<PlayerEvent>)
  {
    match command
    case Play => [Playing]
    case Pause => [Paused]
    case _ => []
  }

  /** The events a run of directives sends, in order. */
  function EventsForAll(commands: seq<PlayerCommand>): (events: seq<PlayerEvent>)
    ensures FinishedTrack !in events
  {
    if commands == [] then [] else EventsForAll(commands[..|commands| - 1]) + EventsFor(commands[|commands| - 1])
  }

  predicate AllLoadsValid(commands: seq<PlayerCommand>) {
    forall i :: 0 <= i < |commands| ==> commands[i].Load? ==> IsBase62Id(commands[i].id)
  }

  class PlayerWorker {
    var active: bool
    var playTask: Task
    var events: seq<PlayerEvent>
    var calls: seq<PlayerCall>

    constructor ()
      ensures !active && playTask == NeverReady && events == [] && calls == []
    {
      active := false;
      playTask := NeverReady;
      events := [];
      calls := [];
    }

    /** `PlayerWorker::handle_event`, as written: the future returned by the
        load is dropped, so `playTask` never changes. */
    method HandleEvent(command: PlayerCommand)
      requires command.Load? ==> IsBase62Id(command.id)
      modifies this
      ensures playTask == old(playTask)
      ensures events == old(events) + EventsFor(command)
      ensures command.Play? ==> active && calls == old(calls) + [Resume]
      ensures command.Pause? ==> !active && calls == old(calls) + [Suspend]
      ensures command.Stop? ==> !active && calls == old(calls) + [Halt]
      ensures command.Load? ==> active == old(active) && calls == old(calls) + [LoadTrack(command.id, false, 0)]
      ensures (command.Seek? || command.NextTrack? || command.PreviousTrack?) ==>
                active == old(active) && calls == old(calls)
    {
      match command
      case Load(id) =>
        calls := calls + [LoadTrack(id, false, 0)];
      case Play =>
        calls := calls + [Resume];
        events := events + [Playing];
        active := true;
      case Pause =>
        calls := calls + [Suspend];
        events := events + [Paused];
        active := false;
      case Stop =>
        calls := calls + [Halt];
        active := false;
      case _ =>
    }

    /** `PlayerWorker::handle_event` as evidently intended: the load's
        end-of-track future becomes the polled task. */
    method HandleEventIntended(command: PlayerCommand)
      requires command.Load? ==> IsBase62Id(command.id)
      modifies this
      ensures command.Load? ==> playTask == EndOfTrack(command.id)
      ensures !command.Load? ==> playTask == old(playTask)
      ensures events == old(events) + EventsFor(command)
      ensures command.Play? ==> active && calls == old(calls) + [Resume]
      ensures command.Pause? ==> !active && calls == old(calls) + [Suspend]
      ensures command.Stop? ==> !active && calls == old(calls) + [Halt]
      ensures command.Load? ==> active == old(active) && calls == old(calls) + [LoadTrack(command.id, false, 0)]
      ensures (command.Seek? || command.NextTrack? || command.PreviousTrack?) ==>
                active == old(active) && calls == old(calls)
    {
      HandleEvent(command);
      if command.Load? {
        playTask := EndOfTrack(command.id);
      }
    }

    /** The end-of-track branch of `poll`: a completed task reports
        `FinishedTrack`; a cancelled one is replaced by `pending()`. */
    method PollTask(completion: Completion)
      modifies this
      ensures active == old(active) && calls == old(calls)
      ensures PollOutcome(old(playTask), completion) == Finished ==>
                events == old(events) + [FinishedTrack] && playTask == old(playTask)
      ensures PollOutcome(old(playTask), completion) == Canceled ==>
                events == old(events) && playTask == NeverReady
      ensures PollOutcome(old(playTask), completion) == NotReady ==>
                events == old(events) && playTask == old(playTask)
    {
      match PollOutcome(playTask, completion)
      case Finished =>
        events := events + [FinishedTrack];
      case Canceled =>
        playTask := NeverReady;
      case NotReady =>
    }
  }

  /** The worker's `poll` loop as written: each received directive is handled,
      then the end-of-track task is polled with whatever the session reports.
      Since no load future is ever kept, `FinishedTrack` is never sent. */
  method Run(commands: seq<PlayerCommand>, completions: seq<Completion>) returns (events: seq<PlayerEvent>)
    requires |completions| == |commands|
    requires AllLoadsValid(commands)
    ensures events == EventsForAll(commands)
    ensures FinishedTrack !in events
  {
    var worker := new PlayerWorker();
    var i := 0;
    while i < |commands|
      invariant 0 <= i <= |commands|
      invariant worker.playTask == NeverReady
      invariant worker.events == EventsForAll(commands[..i])
    {
      worker.HandleEvent(commands[i]);
      worker.PollTask(completions[i]);
      assert commands[..i + 1][..i] == commands[..i];
      i := i + 1;
    }
    assert commands[..i] == commands;
    events := worker.events;
  }

  /** A track is loaded and played and the session then reports its end: as
      written, no `FinishedTrack` reaches the queue. */
  method EndOfTrackAsWritten(id: string) returns (events: seq<PlayerEvent>)
    requires IsBase62Id(id)
    ensures events == [Playing]
  {
    var worker := new PlayerWorker();
    worker.HandleEvent(Load(id));
    worker.HandleEvent(Play);
    worker.PollTask(Finished);
    events := worker.events;
  }

  /** The same scenario with the load future kept: the end of the track is
      reported once, after `Playing`. */
  method EndOfTrackIntended(id: string) returns (events: seq<PlayerEvent>)
    requires IsBase62Id(id)
    ensures events == [Playing, FinishedTrack]
  {
    var worker := new PlayerWorker();
    worker.HandleEventIntended(Load(id));
    worker.HandleEventIntended(Play);
    worker.PollTask(Finished);
    events := worker.events;
  }
}
