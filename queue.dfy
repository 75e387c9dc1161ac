/** The playback queue (src/queue.rs): the ordered track list, the optional
    current index, the last reported transport status, and the directives it
    dispatches to the player bridge, kept here as the log `sent`. */
module PlayQueue {
  import opened Base
  import opened Tracks
  import opened Respot

  // ----- Value-level specification of the list edits -----

  /** `Vec::remove(i)` on the list. */
  function Removed<T>(s: seq<T>, i: nat): (r: seq<T>)
    requires i < |s|
    ensures |r| == |s| - 1
    ensures forall k :: 0 <= k < i ==> r[k] == s[k]
    ensures forall k :: i <= k < |r| ==> r[k] == s[k + 1]
  {
    s[..i] + s[i + 1..]
  }

  /** Inserting `block` contiguously so that it starts at position `i`. */
  function Inserted<T>(s: seq<T>, i: nat, block: seq<T>): (r: seq<T>)
    requires i <= |s|
    ensures |r| == |s| + |block|
    ensures forall k :: 0 <= k < i ==> r[k] == s[k]
    ensures forall k :: 0 <= k < |block| ==> r[i + k] == block[k]
    ensures forall k :: i <= k < |s| ==> r[k + |block|] == s[k]
  {
    s[..i] + block + s[i..]
  }

  /** `shift(from, to)` on the list: remove the item at `from`, then insert it
      at `to` (both must be in range, or `Vec` panics). */
  function Moved<T>(s: seq<T>, from: nat, to: nat): (r: seq<T>)
    requires from < |s| && to < |s|
    ensures |r| == |s| && r[to] == s[from]
  {
    Inserted(Removed(s, from), to, [s[from]])
  }

  /** Where the item at position `k` of a moved list came from. */
  function MovedSource(from: nat, to: nat, k: nat): nat {
    if k == to then from
    else if from < to && from <= k < to then k + 1
    else if to < from && to < k <= from then k - 1
    else k
  }

  /** Moving an item is a permutation that puts the item at `to` and shifts
      exactly the items between the two positions by one. */
  lemma MovedAt<T>(s: seq<T>, from: nat, to: nat, k: nat)
    requires from < |s| && to < |s| && k < |s|
    ensures |Moved(s, from, to)| == |s|
    ensures MovedSource(from, to, k) < |s|
    ensures Moved(s, from, to)[k] == s[MovedSource(from, to, k)]
  {
    var r := Removed(s, from);
    var m := Moved(s, from, to);
    if k < to {
      assert m[k] == r[k];
    } else if k > to {
      assert m[k] == r[k - 1];
    }
  }

  lemma {:induction false} MovedIsPermutation<T>(s: seq<T>, from: nat, to: nat)
    requires from < |s| && to < |s|
    ensures multiset(Moved(s, from, to)) == multiset(s)
  {
    var r := Removed(s, from);
    calc {
      multiset(Moved(s, from, to));
      multiset(r[..to] + [s[from]] + r[to..]);
      multiset(r[..to]) + multiset([s[from]]) + multiset(r[to..]);
      { assert r[..to] + r[to..] == r; }
      multiset(r) + multiset([s[from]]);
      { assert r == s[..from] + s[from + 1..]; }
      multiset(s[..from]) + multiset(s[from + 1..]) + multiset([s[from]]);
      { assert s == s[..from] + [s[from]] + s[from + 1..]; }
      multiset(s);
    }
  }

  /** The current-index repair of `shift` as written: only a current index
      equal to `from` or to `to` is adjusted. */
  function ShiftedCurrent(current: Option<nat>, from: nat, to: nat): (r: Option<nat>)
    ensures r.None? <==> current.None?
    ensures current.Some? && current.value != from && current.value != to ==> r == current
  {
    match current
    case None => None
    case Some(index) =>
      if index == from then Some(to)
      else if index == to && from > index then Some(to + 1)
      else if index == to && from < index then Some(to - 1)
      else current
  }

  /** In the three cases it adjusts, `shift` keeps the current track the same
      one, and the new index is in range. */
  lemma ShiftedCurrentKeepsTrack<T>(s: seq<T>, from: nat, to: nat, c: nat)
    requires from < |s| && to < |s| && c < |s|
    requires c == from || c == to
    ensures ShiftedCurrent(Some(c), from, to).Some?
    ensures ShiftedCurrent(Some(c), from, to).value < |s|
    ensures Moved(s, from, to)[ShiftedCurrent(Some(c), from, to).value] == s[c]
  {
    MovedAt(s, from, to, ShiftedCurrent(Some(c), from, to).value);
  }

  lemma ShiftedCurrentInRange(from: nat, to: nat, current: Option<nat>, len: nat)
    requires from < len && to < len
    requires current.None? || current.value < len
    ensures ShiftedCurrent(current, from, to).None? || ShiftedCurrent(current, from, to).value < len
  {
  }

  /** A current index strictly between `from` and `to` is left as it was, so
      it names a different track afterwards: on [10, 11, 12] with track 11
      current, `shift(0, 2)` leaves index 1 current, which now holds 12. */
  lemma ShiftLosesCurrentTrack()
    ensures Moved([10, 11, 12], 0, 2) == [11, 12, 10]
    ensures ShiftedCurrent(Some(1), 0, 2) == Some(1)
    ensures Moved([10, 11, 12], 0, 2)[1] != [10, 11, 12][1]
  {
    assert Removed([10, 11, 12], 0) == [11, 12];
  }

  /** The repair that keeps the current track under any single move. */
  function IntendedShiftedCurrent(current: Option<nat>, from: nat, to: nat): (r: Option<nat>)
    ensures r.None? <==> current.None?
    ensures current.Some? && current.value < from && current.value < to ==> r == current
    ensures current.Some? && current.value > from && current.value > to ==> r == current
  {
    match current
    case None => None
    case Some(index) =>
      if index == from then Some(to)
      else if from < index <= to then Some(index - 1)
      else if to <= index < from then Some(index + 1)
      else current
  }

  lemma IntendedShiftKeepsTrack<T>(s: seq<T>, from: nat, to: nat, c: nat)
    requires from < |s| && to < |s| && c < |s|
    ensures IntendedShiftedCurrent(Some(c), from, to).Some?
    ensures IntendedShiftedCurrent(Some(c), from, to).value < |s|
    ensures Moved(s, from, to)[IntendedShiftedCurrent(Some(c), from, to).value] == s[c]
  {
    MovedAt(s, from, to, IntendedShiftedCurrent(Some(c), from, to).value);
  }

  /** The current index after `remove(index)` has shrunk the list to `newLen`
      items. */
  function RemovedCurrent(current: Option<nat>, index: nat, newLen: nat): (r: Option<nat>)
    ensures newLen == 0 || current.None? ==> r.None?
    ensures newLen > 0 && current.Some? && current.value < index ==> r == current
  {
    if newLen == 0 then None
    else match current
      case None => None
      case Some(c) =>
        if c == index then (if c == newLen then None else Some(index))
        else if c > index then Some(c - 1)
        else current
  }

  /** What `remove(index)` may be asked: the index must exist (`Vec::remove`
      panics otherwise), and a track that will be replayed needs an id. */
  predicate RemoveAllowed(tracks: seq<Track>, current: Option<nat>, index: nat) {
    index < |tracks| &&
    (current == Some(index) && index + 1 < |tracks| ==> tracks[index + 1].id.Some?)
  }

  /** The directives `remove(index)` dispatches. */
  function RemoveDirectives(tracks: seq<Track>, current: Option<nat>, index: nat): (r: seq<PlayerCommand>)
    requires RemoveAllowed(tracks, current, index)
    ensures r == [] <==> |tracks| > 1 && current != Some(index)
    ensures r == [] || r == [Stop] || (|r| == 2 && r[0].Load? && r[1] == Play)
  {
    if |tracks| == 1 then [Stop]
    else if current == Some(index) then
      (if index == |tracks| - 1 then [Stop] else [Load(tracks[index + 1].id.value), Play])
    else []
  }

  /** Removing another track keeps the current track the same one. */
  lemma RemoveKeepsCurrentTrack(tracks: seq<Track>, index: nat, c: nat)
    requires index < |tracks| && c < |tracks| && c != index
    ensures RemovedCurrent(Some(c), index, |tracks| - 1).Some?
    ensures Removed(tracks, index)[RemovedCurrent(Some(c), index, |tracks| - 1).value] == tracks[c]
    ensures c > index ==> RemovedCurrent(Some(c), index, |tracks| - 1) == Some(c - 1)
    ensures c < index ==> RemovedCurrent(Some(c), index, |tracks| - 1) == Some(c)
    ensures RemoveDirectives(tracks, Some(c), index) == []
  {
  }

  /** Removing the current track when it is not the last replays the same
      position, which now holds the following track. */
  lemma RemoveCurrentReplays(tracks: seq<Track>, index: nat)
    requires index + 1 < |tracks| && tracks[index + 1].id.Some?
    ensures RemovedCurrent(Some(index), index, |tracks| - 1) == Some(index)
    ensures Removed(tracks, index)[index] == tracks[index + 1]
    ensures RemoveDirectives(tracks, Some(index), index) == [Load(tracks[index + 1].id.value), Play]
  {
  }

  /** Emptying the list, or removing the current track when it is last,
      stops: nothing is current and exactly one `Stop` is dispatched. */
  lemma RemoveStops(tracks: seq<Track>, current: Option<nat>, index: nat)
    requires RemoveAllowed(tracks, current, index)
    requires |tracks| == 1 || (current == Some(index) && index == |tracks| - 1)
    ensures RemovedCurrent(current, index, |tracks| - 1).None?
    ensures RemoveDirectives(tracks, current, index) == [Stop]
  {
  }

  lemma RemovedCurrentInRange(current: Option<nat>, index: nat, len: nat)
    requires index < len
    requires current.None? || current.value < len
    ensures RemovedCurrent(current, index, len - 1).None? || RemovedCurrent(current, index, len - 1).value < len - 1
  {
  }

  // ----- The queue object -----

  class Queue {
    var tracks: seq<Track>
    var current: Option<nat>
    var status: PlayerEvent
    /** Every directive dispatched on the command channel, oldest first. */
    var sent: seq<PlayerCommand>

    /** The index that `get_current` reads without a bounds check is in range. */
    predicate Valid()
      reads this
    {
      current.None? || current.value < |tracks|
    }

    constructor ()
      ensures Valid()
      ensures tracks == [] && current == None && status == Stopped && sent == []
    {
      tracks := [];
      current := None;
      status := Stopped;
      sent := [];
    }

    function NextIndex(): (r: Option<nat>)
      reads this
      ensures r.Some? <==> current.Some? && current.value + 1 < |tracks|
      ensures r.Some? ==> r.value == current.value + 1
    {
      match current
      case Some(index) => if index + 1 < |tracks| then Some(index + 1) else None
      case None => None
    }

    function PreviousIndex(): (r: Option<nat>)
      reads this
      ensures r.Some? <==> current.Some? && current.value > 0
      ensures r.Some? ==> r.value == current.value - 1
    {
      match current
      case Some(index) => if index > 0 then Some(index - 1) else None
      case None => None
    }

    /** `get_current`: indexes without a check, hence `Valid()`. */
    function GetCurrent(): (r: Option<Track>)
      reads this
      requires Valid()
      ensures r.Some? <==> current.Some?
      ensures r.Some? ==> r.value == tracks[current.value]
    {
      match current
      case Some(index) => Some(tracks[index])
      case None => None
    }

    /** `len`: the number of tracks, which bounds the current index. */
    function Len(): (n: nat)
      reads this
      ensures n == |tracks|
      ensures Valid() ==> (current.Some? ==> current.value < n)
      ensures n == 0 ==> (Valid() <==> current.None?)
    {
      |tracks|
    }

    function GetStatus(): PlayerEvent
      reads this
    {
      status
    }

    /** `get_duration`: whole seconds of the current track, 0 when none. */
    function GetDuration(): (d: nat)
      reads this
      requires Valid()
      ensures current.None? ==> d == 0
      ensures current.Some? ==> d * 1000 <= tracks[current.value].duration < (d + 1) * 1000
    {
      match GetCurrent()
      case Some(track) => track.duration / 1000
      case None => 0
    }

    method Dispatch(command: PlayerCommand)
      modifies this`sent
      ensures sent == old(sent) + [command]
    {
      sent := sent + [command];
    }

    method Append(track: Track)
      requires Valid()
      modifies this`tracks
      ensures Valid()
      ensures tracks == old(tracks) + [track]
      ensures Len() == old(Len()) + 1 && GetCurrent() == old(GetCurrent())
    {
      tracks := tracks + [track];
    }

    /** `append_next`: inserts the block right after the current track, or at
        the end when nothing is current, and returns its first position. */
    method AppendNext(block: seq<Track>) returns (first: nat)
      requires Valid()
      modifies this`tracks
      ensures Valid()
      ensures first == if current.Some? then current.value + 1 else |old(tracks)|
      ensures tracks == Inserted(old(tracks), first, block)
      ensures Len() == old(Len()) + |block|
    {
      first := match current
        case Some(index) => index + 1
        case None => |tracks|;
      ghost var original := tracks;
      var i := first;
      for k := 0 to |block|
        invariant i == first + k
        invariant tracks == original[..first] + block[..k] + original[first..]
      {
        assert block[..k + 1] == block[..k] + [block[k]];
        tracks := Inserted(tracks, i, [block[k]]);
        i := i + 1;
      }
      assert block[..|block|] == block;
    }

    method Stop()
      modifies this`current, this`sent
      ensures current == None
      ensures sent == old(sent) + [PlayerCommand.Stop]
    {
      current := None;
      Dispatch(PlayerCommand.Stop);
    }

    /** `play(index)`: out of range changes nothing; otherwise `Load` then
        `Play` are dispatched and the index becomes current. */
    method Play(index: nat)
      requires index < |tracks| ==> tracks[index].id.Some?
      modifies this`current, this`sent
      ensures index >= |tracks| ==> current == old(current) && sent == old(sent)
      ensures index < |tracks| ==> current == Some(index)
      ensures index < |tracks| ==> sent == old(sent) + [Load(tracks[index].id.value), PlayerCommand.Play]
    {
      if index < |tracks| {
        Dispatch(Load(tracks[index].id.value));
        current := Some(index);
        Dispatch(PlayerCommand.Play);
      }
    }

    /** `remove(index)`. */
    method Remove(index: nat)
      requires Valid() && RemoveAllowed(tracks, current, index)
      modifies this`tracks, this`current, this`sent
      ensures Valid()
      ensures tracks == Removed(old(tracks), index)
      ensures current == RemovedCurrent(old(current), index, |tracks|)
      ensures sent == old(sent) + RemoveDirectives(old(tracks), old(current), index)
      ensures Len() == old(Len()) - 1
    {
      tracks := Removed(tracks, index);

      if |tracks| == 0 {
        Stop();
        return;
      }

      var now := current;
      if now.Some? {
        var c := now.value;
        if c == index {
          if c == |tracks| {
            Stop();
          } else {
            Play(index);
          }
        } else if c > index {
          current := Some(c - 1);
        }
      }
    }

    /** `clear()`: stops, then empties the list. */
    method Clear()
      modifies this`tracks, this`current, this`sent
      ensures Valid()
      ensures tracks == [] && current == None
      ensures sent == old(sent) + [PlayerCommand.Stop]
      ensures Len() == 0 && GetCurrent().None?
    {
      Stop();
      tracks := [];
    }

    /** `shift(from, to)`, with its current-index repair as written. */
    method Shift(from: nat, to: nat)
      requires Valid() && from < |tracks| && to < |tracks|
      modifies this`tracks, this`current
      ensures Valid()
      ensures tracks == Moved(old(tracks), from, to)
      ensures current == ShiftedCurrent(old(current), from, to)
      ensures Len() == old(Len())
    {
      ShiftedCurrentInRange(from, to, current, |tracks|);
      var item := tracks[from];
      tracks := Removed(tracks, from);
      tracks := Inserted(tracks, to, [item]);
      if current.Some? {
        var index := current.value;
        if index == from {
          current := Some(to);
        } else if index == to && from > index {
          current := Some(to + 1);
        } else if index == to && from < index {
          current := Some(to - 1);
        }
      }
    }

    /** `next()`: plays the following track if there is one; otherwise only
        a `Stop` is dispatched and the current index stays as it was. */
    method Next(manual: bool)
      requires Valid()
      requires NextIndex().Some? ==> tracks[NextIndex().value].id.Some?
      modifies this`current, this`sent
      ensures Valid()
      ensures old(NextIndex()).Some? ==>
                current == old(NextIndex()) &&
                sent == old(sent) + [Load(tracks[current.value].id.value), PlayerCommand.Play]
      ensures old(NextIndex()).None? ==> current == old(current) && sent == old(sent) + [PlayerCommand.Stop]
    {
      var next := NextIndex();
      if next.Some? {
        Play(next.value);
      } else {
        Dispatch(PlayerCommand.Stop);
      }
    }

    /** `previous()`: the mirror image of `next()`, without wrap-around. */
    method Previous()
      requires Valid()
      requires PreviousIndex().Some? ==> tracks[PreviousIndex().value].id.Some?
      modifies this`current, this`sent
      ensures Valid()
      ensures old(PreviousIndex()).Some? ==>
                current == old(PreviousIndex()) &&
                sent == old(sent) + [Load(tracks[current.value].id.value), PlayerCommand.Play]
      ensures old(PreviousIndex()).None? ==> current == old(current) && sent == old(sent) + [PlayerCommand.Stop]
    {
      var previous := PreviousIndex();
      if previous.Some? {
        Play(previous.value);
      } else {
        Dispatch(PlayerCommand.Stop);
      }
    }
  }

  /** The background consumer of transport events. */
  class QueueWorker {
    const queue: Queue

    constructor (queue: Queue)
      ensures this.queue == queue
    {
      this.queue := queue;
    }

    /** `QueueWorker::handle_event`: every event, `FinishedTrack` included,
        is stored as the status and nothing else changes. */
    method HandleEvent(event: PlayerEvent)
      modifies queue`status
      ensures queue.status == event && queue.GetStatus() == event
    {
      // The per-event branches of the source only hold commented-out
      // elapsed-time bookkeeping.
      queue.status := event;
    }
  }
}
