/** The directives and transport events exchanged between the playback queue
    and the player bridge (src/respot/mod.rs). */
module Respot {
  import opened Base

  /** A playback directive. `Pause` is matched by the player worker
      (src/respot/player_worker.rs:40) although the enum in this snapshot
      lacks it, so it is added here. */
  datatype PlayerCommand = Load(id: string) | Seek(position: u32) | NextTrack | PreviousTrack | Stop | Play | Pause

  /** A transport event reported back to the queue. */
  datatype PlayerEvent = FinishedTrack | Playing | Stopped | Paused

  /** The `state:` word a status reply would show for an event. */
  function Display(e: PlayerEvent): (s: string)
    ensures s == "play" <==> e == Playing
    ensures s == "pause" <==> e == Paused
    ensures s == "stop" <==> (e == Stopped || e == FinishedTrack)
    ensures s in ["play", "pause", "stop"]
  {
    match e
    case Playing => "play"
    case Paused => "pause"
    case _ => "stop"
  }
}
