# spotify-mpd core, modelled in Dafny

spotify-mpd is a small MPD (Music Player Daemon) server that plays Spotify
tracks. An MPD client connects over TCP and sends line-protocol commands.
The server answers from the Spotify catalog and keeps a playback queue. The
queue sends directives (`Load`, `Play`, `Stop`, ...) to a player bridge,
which drives the streaming session and reports transport events back.

This project models the sequential logic of that core and proves
properties of it:

- `queue.dfy` (module `PlayQueue`): the playback queue. It is a class with
  the track list, the optional current index, the last transport status and
  the log of dispatched directives. Value-level functions specify the list
  edits and the current-index repairs.
- `track.dfy` (`Tracks`): the track record, its conversion from a catalog
  track, and its rendering as `key: value` protocol lines.
- `respot.dfy` (`Respot`): the directive and event enums and the `state:`
  word shown for each event.
- `player_worker.dfy` (`PlayerWorkers`) and `respot_legacy.dfy`
  (`RespotLegacy`): the two player-bridge workers. Each has an `active`
  flag, the events it sends and the calls it makes on the session.
- `mpd_commands.dfy` (`MpdCommands`): the reply builders for `status`,
  `stats`, `listplaylists`, `listplaylistinfo` and `add`. Catalog results
  are given as inputs.
- `mpd_line.dfy` (`MpdLine`): how a line is split into its verb and its
  argument. The argument is what the pattern `\s+"?([^"]*)"?` captures.
- `framing.dfy` (`Framing`): how a batch of commands becomes one response.
  A batch stops after the first `ACK` line, and `OK` is appended only when
  there is no `ACK` line.
- `mpd_handler.dfy` (`MpdHandler`): the newer connection handler. It covers
  subsystem-change announcements, command-list reading, dispatch through a
  registry, and the idle/noidle state machine, plus a `Connection` class
  for one client.
- `mpd_legacy.dfy` (`MpdLegacy`): the older connection handler. It has a
  verb table with aliases, `command_list_begin` framing and built-in
  capability replies.
- `base.dfy` (`Base`) and `text.dfy` (`Text`): Option/Result, integer
  widths, and the string functions the core calls (`trim`, `join`,
  `to_lowercase`, decimal formatting).

The socket is a sequence of input lines plus the text written so far. The
player session is a log of the calls made on it. The event channels are
logs of the events sent.

The newer handler's command-list marker is `command_list_start`
(src/mpd/mod.rs:194). The older handler and the MPD protocol use
`command_list_begin` (src/mpd.rs:107). Each module uses its own file's
marker.

## Model

| member | source | states |
|---|---|---|
| PlayQueue.Removed | src/queue.rs:94-98 | `Vec::remove(i)`: one item shorter, items before `i` kept, items after `i` moved down by one |
| PlayQueue.Moved | src/queue.rs:142-145 | `remove(from)` then `insert(to, item)`: same length, and the moved item lands at `to` |
| PlayQueue.Inserted | src/queue.rs:85-89 | a block inserted at `i` keeps the items before `i`, holds the block in order from `i`, and moves the rest up by the block's length |
| PlayQueue.MovedAt | src/queue.rs:142-145 | after `shift(from, to)` the item at `to` came from `from`, items between the two positions moved by one, all others stayed |
| PlayQueue.MovedIsPermutation | src/queue.rs:142-145 | moving an item is a permutation of the list |
| PlayQueue.ShiftedCurrent | src/queue.rs:147-158 | the current-index repair of `shift`: no current index stays none, and an index other than `from` and `to` is left unchanged |
| PlayQueue.ShiftedCurrentKeepsTrack | src/queue.rs:150-157 | in the three adjusted cases the new current index is in range and names the same track as before |
| PlayQueue.ShiftedCurrentInRange | src/queue.rs:142-158 | the repaired index stays within the list |
| PlayQueue.ShiftLosesCurrentTrack | src/queue.rs:150-157 | counterexample: a current index strictly between `from` and `to` ends up naming another track |
| PlayQueue.IntendedShiftedCurrent | src/queue.rs:147-158 | the corrected repair: none stays none, and an index outside the span between `from` and `to` is left unchanged |
| PlayQueue.IntendedShiftKeepsTrack | src/queue.rs:147-158 | the corrected repair keeps the current track under every move |
| PlayQueue.RemovedCurrent | src/queue.rs:100-128 | after `remove(index)`: an emptied list or no current index leaves nothing current; a current index before `index` is kept |
| PlayQueue.RemoveDirectives | src/queue.rs:100-121 | `remove` dispatches nothing exactly when the list keeps tracks and the current track was not removed; otherwise one `Stop`, or `Load` then `Play` |
| PlayQueue.RemoveKeepsCurrentTrack | src/queue.rs:110-128 | removing another track keeps the current track (index lowered by one when it was after the removed one) and dispatches nothing |
| PlayQueue.RemoveCurrentReplays | src/queue.rs:110-120 | removing the current track when it is not last keeps the index, which now holds the next track, and dispatches `Load` of it then `Play` |
| PlayQueue.RemoveStops | src/queue.rs:100-121 | emptying the list, or removing the current track when it is last, leaves nothing current and dispatches exactly one `Stop` |
| PlayQueue.RemovedCurrentInRange | src/queue.rs:94-128 | the current index after a removal stays within the shorter list |
| PlayQueue.Queue.constructor | src/queue.rs:18-25 | a new queue is empty, has nothing current, is stopped and has dispatched nothing |
| PlayQueue.Queue.NextIndex | src/queue.rs:36-48 | the next index exists exactly when a track is current and is not last, and is then current + 1 |
| PlayQueue.Queue.PreviousIndex | src/queue.rs:50-62 | the previous index exists exactly when a track is current and is not first, and is then current - 1 |
| PlayQueue.Queue.GetCurrent | src/queue.rs:64-69 | the current track, present exactly when an index is current; safe because of the queue invariant |
| PlayQueue.Queue.Len | src/queue.rs:138-140 | the number of tracks, which bounds the current index; with no tracks only "nothing current" is valid. `Append` adds one, `AppendNext` adds the block's length, `Remove` takes one away, `Clear` leaves none and `Shift` keeps it |
| PlayQueue.Queue.GetDuration | src/queue.rs:204-211 | whole seconds of the current track (rounded down), 0 when nothing is current |
| PlayQueue.Queue.Dispatch | src/queue.rs:213-215 | a directive is appended to the log |
| PlayQueue.Queue.Append | src/queue.rs:71-75 | the track is added last and the invariant is kept |
| PlayQueue.Queue.AppendNext | src/queue.rs:77-92 | the tracks are inserted in order right after the current track, or at the end when nothing is current, and that position is returned |
| PlayQueue.Queue.Stop | src/queue.rs:176-180 | nothing is current and one `Stop` is dispatched |
| PlayQueue.Queue.Play | src/queue.rs:161-170 | an out-of-range index changes nothing; otherwise `Load(id)` then `Play` are dispatched and the index becomes current |
| PlayQueue.Queue.Remove | src/queue.rs:94-129 | the list loses the item, the current index and the directives follow the removal specification, and the invariant is kept |
| PlayQueue.Queue.Clear | src/queue.rs:131-136 | stops, then empties the list |
| PlayQueue.Queue.Shift | src/queue.rs:142-159 | the list is the moved list and the current index is repaired as written; the invariant is kept |
| PlayQueue.Queue.Next | src/queue.rs:182-188 | plays current + 1 when it exists; otherwise dispatches one `Stop` and leaves the current index |
| PlayQueue.Queue.Previous | src/queue.rs:190-196 | plays current - 1 when it exists; otherwise dispatches one `Stop` and leaves the current index |
| PlayQueue.QueueWorker.constructor | src/queue.rs:223-228 | the worker is bound to its queue |
| PlayQueue.QueueWorker.HandleEvent | src/queue.rs:230-248 | every event, `FinishedTrack` included, becomes the status that `get_status` returns |
| Tracks.ArtistNames | src/track.rs:43-53 | the names of the artists, in order |
| Tracks.ToMpdFormat | src/track.rs:22-38 | 11 lines, each starting with its key (file, Artist, AlbumArtist, Title, Album, Track, Date, Time, duration, Pos, Id) and `: ` |
| Tracks.FromFullTrack | src/track.rs:41-71 | the converted track keeps the id and URI, one name per artist and album artist, and has no `added_at` |
| Tracks.ToMpdFormatKeys | src/track.rs:22-38 | exactly 11 lines, keyed file, Artist, AlbumArtist, Title, Album, Track, Date, Time, duration, Pos, Id in that order |
| Tracks.ToMpdFormatFields | src/track.rs:25-35 | each line reads back as its field: artists and album artists joined with `;`, title, album, track number, date, `Time` and `duration` both whole seconds, `Pos` and `Id` both the position |
| Tracks.FromFullTrackFields | src/track.rs:41-71 | conversion keeps id, title, duration, URI, release date, artist order and album artist order, and leaves `added_at` empty |
| Tracks.ArtistLineRoundTrip | src/track.rs:26 | the `Artist` line of a converted track splits back into the artist names when no name holds `;` |
| Tracks.LookupFields | src/track.rs:22-38 | each value of a reply with distinct keys reads back by its key |
| Text.SplitJoin | src/track.rs:26-27 | joining with a separator no part contains can be undone by splitting |
| Text.ParseNatToString | src/track.rs:30-33 | the decimal text of a number reads back as that number |
| Respot.Display | src/respot/mod.rs:32-40 | `Playing` shows `play`, `Paused` shows `pause`, `Stopped` and `FinishedTrack` show `stop`, and nothing else is shown |
| PlayerWorkers.EventsForAll | src/respot/player_worker.rs:26-53 | directives alone never send `FinishedTrack` |
| PlayerWorkers.PlayerWorker.constructor | src/respot/player_worker.rs:17-25 | a new worker is inactive, polls `pending()` and has sent and called nothing |
| PlayerWorkers.PlayerWorker.HandleEvent | src/respot/player_worker.rs:26-53 | `Play` activates and sends `Playing`; `Pause` deactivates and sends `Paused`; `Stop` deactivates silently; `Load` calls load and keeps `play_task`; others change nothing |
| PlayerWorkers.PlayerWorker.HandleEventIntended | src/respot/player_worker.rs:26-53 | corrected `Load`: the load's end-of-track future becomes the polled task; events, player calls and `active` exactly as in `HandleEvent` (`Play` resumes and activates, `Pause` suspends, `Stop` halts, `Load` still calls load) |
| PlayerWorkers.PlayerWorker.PollTask | src/respot/player_worker.rs:69-80 | a completed task sends `FinishedTrack`; a cancelled one is replaced by `pending()` without an event |
| PlayerWorkers.Run | src/respot/player_worker.rs:59-86 | the worker's loop sends exactly the directive events, and never `FinishedTrack` |
| PlayerWorkers.EndOfTrackAsWritten | src/respot/player_worker.rs:28-33 | counterexample: load, play and end of track send only `Playing` |
| PlayerWorkers.EndOfTrackIntended | src/respot/player_worker.rs:28-33 | with the load future kept, the same run sends `Playing` then `FinishedTrack` |
| RespotLegacy.EventsForAll | src/respot.rs:51-72 | directives send only `Playing` events, at most one per directive |
| RespotLegacy.PlayerWorker.constructor | src/respot.rs:41-50 | a new worker is inactive, polls `pending()` and has sent and called nothing |
| RespotLegacy.PlayerWorker.HandleEvent | src/respot.rs:51-72 | `Play` activates and sends `Playing`; `Stop` deactivates silently; `Load` calls load and keeps `play_task`; others change nothing |
| RespotLegacy.PlayerWorker.HandleEventIntended | src/respot.rs:51-72 | corrected: `Load` makes the load's end-of-track future the polled task; events, player calls and `active` exactly as in `HandleEvent` |
| RespotLegacy.PlayerWorker.PollTask | src/respot.rs:88-99 | a completed task sends `FinishedTrack`; a cancelled one is replaced by `pending()` |
| RespotLegacy.Run | src/respot.rs:78-105 | the worker's loop sends exactly the directive events, all `Playing` |
| RespotLegacy.EndOfTrackAsWritten | src/respot.rs:56 | counterexample: `Load`, `Play`, then the end of the track sends only `Playing` |
| RespotLegacy.EndOfTrackIntended | src/respot.rs:51-96 | corrected: the same run sends `Playing` then `FinishedTrack` |
| MpdCommands.StatusReply | src/mpd/mpd_commands.rs:19-31 | always a successful reply of 8 lines, whatever the argument |
| MpdCommands.StatusReportsStopped | src/mpd/mpd_commands.rs:26-28 | the reply says `playlistlength: 0` and shows the stopped state word |
| MpdCommands.StatsReply | src/mpd/mpd_commands.rs:38-44 | always a successful reply of 2 lines |
| MpdCommands.StatsReportsZero | src/mpd/mpd_commands.rs:40-41 | uptime and play time are both 0 |
| MpdCommands.ListPlaylistsReply | src/mpd/mpd_commands.rs:53-71 | two lines per playlist in catalog order (name, fixed modification time); a failed fetch gives an empty success |
| MpdCommands.FindPlaylist | src/mpd/mpd_commands.rs:136-140 | the first playlist with exactly that name, or none when no name matches |
| MpdCommands.GetPlaylistByName | src/mpd/mpd_commands.rs:132-149 | the loop returns the first exact match, and none when the fetch fails |
| MpdCommands.GetArtists | src/mpd/mpd_commands.rs:159-163 | no artists give an empty line, one artist gives its name |
| MpdCommands.GetArtistsRoundTrip | src/mpd/mpd_commands.rs:159-163 | the joined artist line splits back into the names, in order |
| MpdCommands.TrackBlock | src/mpd/mpd_commands.rs:105-113 | the eight lines written for one track |
| MpdCommands.TrackLines | src/mpd/mpd_commands.rs:97-118 | the track loop writes whole blocks: its line count is a multiple of 8 |
| MpdCommands.TrackLinesAppend | src/mpd/mpd_commands.rs:97-118 | tracks before any local one contribute their blocks in order, empty entries nothing |
| MpdCommands.StopsAtLocalTrack | src/mpd/mpd_commands.rs:101-104 | nothing after the first local track is written |
| MpdCommands.TrackLinesStep | src/mpd/mpd_commands.rs:99-116 | one more entry that is not a local track adds its block, or nothing when it is empty |
| MpdCommands.RenderTracks | src/mpd/mpd_commands.rs:97-118 | the loop writes exactly `TrackLines` of the items, stopping at the first local track |
| MpdCommands.TrackBlockAgreesWithTrackFormat | src/mpd/mpd_commands.rs:105-113 | a block has 8 lines; `Time` equals `duration`, and `Time`, `Artist` and `file` agree with the track's own reply |
| MpdCommands.ListPlaylistInfoReply | src/mpd/mpd_commands.rs:80-129 | `ACK` when no playlist matches, an error when the user lookup fails, empty when the tracks fetch fails, otherwise the track blocks |
| MpdCommands.AddReply | src/mpd/mpd_commands.rs:172-179 | succeeds exactly when the catalog lookup succeeds, with an empty reply |
| MpdLine.Argument | src/mpd/mod.rs:251-260 | no argument exactly when the line holds no whitespace; a captured argument never holds a quote |
| MpdLine.Verb | src/mpd/mod.rs:254-257 | the first whitespace-separated word: a prefix of the line after its leading whitespace, with no whitespace, running up to whitespace or the end |
| MpdLine.VerbOfCommand | src/mpd/mod.rs:255-258 | the verb of `verb argument` is `verb` |
| MpdLine.BareArgument | src/mpd/mod.rs:253-260 | an unquoted argument after one space is captured exactly |
| MpdLine.QuotedArgument | src/mpd/mod.rs:253-260 | a quoted argument is captured without its quotes, spaces included |
| Framing.HasError | src/mpd/mod.rs:239-247 | true exactly when some line starts with `ACK` |
| Framing.HasAckAppend | src/mpd/mod.rs:239-247 | concatenated output has an `ACK` line exactly when one of the parts has |
| Framing.Ran | src/mpd/mod.rs:220-228 | a batch runs up to and including the first command that brings in an `ACK` line, and no earlier prefix has one |
| Framing.Executed | src/mpd/mod.rs:220-228 | the number of commands run: at most all, and when fewer, the output of the ones run has an `ACK` line that no shorter prefix has |
| Framing.StopsAtFirstAck | src/mpd/mod.rs:220-233 | the command that brings in the first `ACK` is the last one run, and no `OK` is added |
| Framing.CleanBatchEndsWithOk | src/mpd/mod.rs:220-236 | a batch without `ACK` lines runs every command and ends with `OK` |
| Framing.Framed | src/mpd/mod.rs:229-234 | the lines are kept as they are; `OK` is appended exactly when no line starts with `ACK`, and it never brings one in |
| Framing.BatchOutput | src/mpd/mod.rs:218-237 | an empty batch writes exactly `OK` |
| Framing.RunBatch | src/mpd/mod.rs:218-237 | writes the framed output of exactly the commands the batch runs; failed commands add nothing |
| MpdHandler.Ordinal | src/mpd/mod.rs:17-30 | each subsystem's place in declaration order |
| MpdHandler.AllSubsystemsSorted | src/mpd/mod.rs:17-30 | the declaration order is strictly increasing and lists every subsystem |
| MpdHandler.NameInjective | src/mpd/mod.rs:32-36 | distinct subsystems are announced under distinct names |
| MpdHandler.SortedDedup | src/mpd/mod.rs:179-180 | the pending events sorted by declaration order without duplicates, with the same members |
| MpdHandler.SortedDedupIsUnique | src/mpd/mod.rs:179-180 | any strictly sorted list with the same members is that list |
| MpdHandler.ChangedNamesDistinct | src/mpd/mod.rs:178-182 | the announced names are distinct and name exactly the pending events |
| MpdHandler.ChangedText | src/mpd/mod.rs:178-182 | the announcement starts with `changed: ` and ends with `\nOK\n` |
| MpdHandler.ChangedSingle | src/mpd/mod.rs:181-182 | one pending event is announced as `changed: <name>` then `OK` |
| MpdHandler.FindEntry | src/mpd/mod.rs:258-259 | the first registry entry answering to the verb, or none |
| MpdHandler.ExecuteCommand | src/mpd/mod.rs:249-280 | a line whose verb no entry answers to always succeeds, with no lines unless it is exactly `commands` |
| MpdHandler.ListingMembers | src/mpd/mod.rs:271-277 | `command: t` is listed exactly for the types of the registry entries |
| MpdHandler.TypeLines | src/mpd/mod.rs:273-275 | one `command: t` line per type of an entry, in the entry's order |
| MpdHandler.ListingAppend | src/mpd/mod.rs:272-276 | the listing of two registries in a row is the first listing followed by the second |
| MpdHandler.ListingLength | src/mpd/mod.rs:272-276 | the listing has exactly one line per type of every entry, duplicates included |
| MpdHandler.ListingAt | src/mpd/mod.rs:272-276 | the lines of entry `i` follow those of the entries before it, type by type in the entry's order |
| MpdHandler.ListCommands | src/mpd/mod.rs:270-277 | the nested loops push exactly the listing |
| MpdHandler.DispatchesRegisteredVerb | src/mpd/mod.rs:255-267 | a registered verb runs the first matching entry on the captured argument |
| MpdHandler.UnregisteredVerb | src/mpd/mod.rs:270-279 | an unregistered verb gives an empty success, except `commands`, which gives exactly the registry listing, so each registered type is listed |
| MpdHandler.FirstEnd | src/mpd/mod.rs:196-200 | the first `command_list_end` line after the start |
| MpdHandler.CommandListOf | src/mpd/mod.rs:191-208 | the list read from the input never consumes more lines than there are |
| MpdHandler.CommandListRoundTrip | src/mpd/mod.rs:191-216 | a framed list is read back exactly and the lines after it are left unread |
| MpdHandler.SingleLine | src/mpd/mod.rs:202-204 | any other line is read as a list of that one trimmed line |
| MpdHandler.CollectAsWritten | src/mpd/mod.rs:195-201 | as written, the loop guard still holds after any number of rounds |
| MpdHandler.ListNeverEndsAsWritten | src/mpd/mod.rs:195-201 | counterexample: the guard still holds after the end marker has been read |
| MpdHandler.Receive | src/mpd/mod.rs:139-144 | no event changes nothing; an event always ends idling; text is written exactly when an event arrives while idle |
| MpdHandler.Respond | src/mpd/mod.rs:146-165 | pending changes are either kept or cleared; a client left idle has been written nothing |
| MpdHandler.ReceiveKeepsSettled | src/mpd/mod.rs:139-144 | an event while idle is announced at once; otherwise it is only recorded; nothing is pending while idle |
| MpdHandler.RespondKeepsSettled | src/mpd/mod.rs:148-165 | handling a list keeps nothing pending while idle |
| MpdHandler.IdleWaits | src/mpd/mod.rs:150-157 | `idle` with nothing pending makes the client idle and runs nothing |
| MpdHandler.IdleIgnoresCommands | src/mpd/mod.rs:163-165 | while idle, a list not starting with `idle` or `noidle` changes nothing and writes nothing |
| MpdHandler.NoidleRuns | src/mpd/mod.rs:158-165 | `noidle` ends idling and the whole list runs |
| MpdHandler.IdleWithChangesAsWritten | src/mpd/mod.rs:150-165 | counterexample: `idle` with changes pending writes the changes, its `OK`, and a second `OK` |
| MpdHandler.IdleWithChangesIntended | src/mpd/mod.rs:150-165 | corrected: exactly one `changed:` block with one `OK`, and every other list handled as before |
| MpdHandler.Connection.constructor | src/mpd/mod.rs:124-135 | a new connection is active, has nothing pending and has written the greeting |
| MpdHandler.Connection.SendSubsystemChanged | src/mpd/mod.rs:178-189 | writes the change announcement, clears the pending events and leaves idle |
| MpdHandler.Connection.GetCmd | src/mpd/mod.rs:210-216 | the next line trimmed, or "" at the end of the input |
| MpdHandler.Connection.GetCommandList | src/mpd/mod.rs:191-216 | reads the command list its specification gives and consumes exactly its lines (the loop reads into the variable its guard tests) |
| MpdHandler.Connection.TakeEvent | src/mpd/mod.rs:139-144 | state and output follow the event specification, and nothing is pending while idle |
| MpdHandler.Connection.Serve | src/mpd/mod.rs:146-165 | state and output follow the list-handling specification |
| MpdHandler.Connection.Step | src/mpd/mod.rs:138-166 | one pass: take an event, read a list, handle it |
| MpdLegacy.InsertAll | src/mpd.rs:71-93 | the successive inserts give the map of the insert sequence |
| MpdLegacy.InsertedContents | src/mpd.rs:72-90 | exactly the inserted verbs are keys, each bound to its command, one key per distinct verb |
| MpdLegacy.Commands | src/mpd.rs:71-93 | the table has 18 verbs |
| MpdLegacy.CommandsTable | src/mpd.rs:73-90 | the table answers to exactly the inserted verbs, each with the command inserted for it |
| MpdLegacy.SharedCommand | src/mpd.rs:73-90 | two inserts of the same command leave both verbs bound to it |
| MpdLegacy.Aliases | src/mpd.rs:77-86 | `add`/`addid`, `play`/`playid` and `playlistinfo`/`plchanges` share a command |
| MpdLegacy.NoBuiltInCommand | src/mpd.rs:73-90 | no verb of the table runs a command that a built-in reply stands in for |
| MpdLegacy.BuiltInsNotRegistered | src/mpd.rs:73-90 | the lines with built-in replies, and `stop`, are not verbs of the table |
| MpdLegacy.FallbackReplies | src/mpd.rs:177-222 | only the five built-in lines get a listing (`handler: spotify:`, 6, 6, 10 `tagtype:` and 6 lines) and no listed line is an error |
| MpdLegacy.FallbackNeverAcks | src/mpd.rs:182-220 | no line of a built-in reply starts with `ACK` |
| MpdLegacy.Fallback | src/mpd.rs:177-222 | a line gets built-in lines exactly when it is one of the five built-in commands |
| MpdLegacy.DoCommand | src/mpd.rs:162-222 | a verb outside the table always succeeds, with lines exactly for the five built-in commands |
| MpdLegacy.DispatchesTableVerb | src/mpd.rs:162-174 | a verb of the table runs its command on the captured argument |
| MpdLegacy.UnknownVerbFallsBack | src/mpd.rs:177-222 | a verb outside the table gets the built-in reply, which never stops a batch |
| MpdLegacy.BareVerbFallsBack | src/mpd.rs:166-222 | a bare word with no table entry gets exactly the built-in reply for that word |
| MpdLegacy.CommandsListed | src/mpd.rs:213-220 | without a table entry, `commands` gets its fixed listing, which advertises `stop` |
| MpdLegacy.StopNotServed | src/mpd.rs:162-222 | without a table entry, `stop` has no built-in reply either and gets an empty reply |
| MpdLegacy.ReadListOf | src/mpd.rs:101-117 | the list one pass reads never consumes more lines than there are |
| MpdLegacy.ReadListRoundTrip | src/mpd.rs:107-114 | a list framed by `command_list_begin` and `command_list_end` is read back exactly, both markers excluded |
| MpdLegacy.ReadSingle | src/mpd.rs:115-117 | outside a list, `idle` and an empty read give no list; any other line is a list of that trimmed line |
| MpdLegacy.LegacyConnection.constructor | src/mpd.rs:63-69 | a new handler starts with an empty table |
| MpdLegacy.LegacyConnection.Open | src/mpd.rs:96-99 | installs the 18-verb table and writes the greeting |
| MpdLegacy.LegacyConnection.ReadLine | src/mpd.rs:105 | the next raw line, or "" at the end of the input |
| MpdLegacy.LegacyConnection.ReadCommandList | src/mpd.rs:101-117 | reads the list its specification gives and consumes exactly its lines |
| MpdLegacy.LegacyConnection.Step | src/mpd.rs:101-155 | an empty list writes nothing; otherwise `execute_command` writes the batch output framed as in the newer handler (stop at the first `ACK`, `OK` only without one) |

## Left out

- The TCP accept loop, thread spawning, `BufReader` and writes: the socket is a sequence of lines and the output a string.
- The loop forever at the end of the input inside an open command list: the read functions require that an opened list is closed (`ListTerminated`, `ListClosed`).
- A failed `read_line` (which panics through `expect`) is not modelled.
- Write-timeout toggling and the `bus` broadcast channel: the event taken from the bus in one pass is a parameter of `Step`.
- Locks and channels in the queue, and the window between the write and the read lock in `remove`: `dispatch` appends to the log `sent`.
- Futures, `poll` scheduling, the tokio core and the ctrl-c `Respot` future with `process::exit`: only one poll of the end-of-track task per received directive is modelled.
- The librespot player and audio backend are a log of calls. `SpotifyId::from_base62` is the predicate `IsBase62Id`, required of every loaded id (it panics otherwise).
- The rspotify network calls are inputs (`Result` values, or a catalog function for `add`).
- The commands that src/mpd/mod.rs registers in `COMMANDS` implement `get_type`/`handle`, which are not part of this model. The registry is a parameter (`seq<Entry>`), and running a command is an abstract `handle` function, as it is in the older handler.
- The play, pause, next, prev, clear, playlistinfo, currentsong, setvol, volume and deleteid commands are not part of this model. Both handlers dispatch to them only through `handle`.
- Logging (`println!`, `info!`, `debug!`).
- Unicode: whitespace is the ASCII set of `char::is_whitespace`, and lower-casing is ASCII. Subsystem names are ASCII.
- PlayQueue.Queue.Shift: models the current-index repair as written; the corrected repair is `IntendedShiftedCurrent`, proved separately (first finding).
- PlayerWorkers.PlayerWorker.HandleEvent and RespotLegacy.PlayerWorker.HandleEvent: model the dropped load future as written; the corrected worker is `HandleEventIntended` (second and third findings).
- MpdHandler.Connection.Serve: uses the handling as written (`Respond`); `RespondIntended` is the corrected handling (fourth finding).
- MpdHandler.Connection.GetCommandList: models the loop as evidently intended, because the loop as written never returns once a list is opened (fifth finding, `CollectAsWritten`).
- MpdLegacy.Fallback: the source tests the five built-in lines with independent `if`s. At most one of them can match, so the model uses one chain.
- The order in which the older handler walks its `HashMap` is not modelled. Its keys are distinct, so at most one entry matches.
- The older `lsinfo` branch has an empty body and is covered by "anything else gives no lines".
- PlayerWorkers.PollOutcome: stands for one poll of the end-of-track task. A `pending()` task is never ready, and a load future is ready as the player reports. It is an abstraction of polling, and its contract states nothing further.
- PlayQueue.RemoveAllowed: a panic is a precondition, not a modelled outcome. `Vec::remove` out of range and the `unwrap` of a missing id in `remove` are excluded.
- PlayQueue.Queue.Shift: requires both indices in range, where `Vec::remove` and `Vec::insert` would panic.
- PlayQueue.Queue.Play: requires an id for an index in range, where `id.unwrap()` would panic. PlayQueue.Queue.Next and PlayQueue.Queue.Previous carry the same requirement for the track they play.
- PlayQueue.Queue.Next: requires an id for the following track, where `play` would panic on `id.unwrap()`.
- PlayQueue.Queue.Previous: requires an id for the preceding track, where `play` would panic on `id.unwrap()`.
- MpdCommands.ListPlaylistInfoReply: requires the captured playlist name, where `args.unwrap()` would panic (src/mpd/mpd_commands.rs:81, reached by a bare `listplaylistinfo`). It also requires every track before the first local one to carry an id and a release date (`Printable`, `Renderable`), where `track.id.unwrap()` and `release_date.unwrap()` would panic (lines 105-106).
- Tracks.ToMpdFormat: requires an id, where `id.unwrap()` would panic.
- Tracks.FromFullTrack: requires a release date, where `release_date.unwrap()` would panic.
- MpdCommands.AddReply: requires the captured argument, where `args.unwrap()` would panic.

## Findings

| source | as written | input that shows it | evidently intended | confidence | as-written member | corrected member |
|---|---|---|---|---|---|---|
| src/queue.rs:150-157 | `shift` repairs the current index only when it equals `from` or `to` | list `[10, 11, 12]`, current index 1, `shift(0, 2)`: index 1 now holds 12 | the current index follows its track under every move | not executed | PlayQueue.ShiftLosesCurrentTrack | PlayQueue.IntendedShiftKeepsTrack |
| src/respot/player_worker.rs:31 | the future returned by `load` is boxed and dropped, so `play_task` stays `pending()` | `Load(id)`, `Play`, then the track ends: only `Playing` is sent | `play_task` becomes the load future, so `FinishedTrack` is sent at the end of the track | not executed | PlayerWorkers.EndOfTrackAsWritten | PlayerWorkers.EndOfTrackIntended |
| src/respot.rs:56 | the older worker also boxes and drops the future returned by `load`, so `play_task` stays `pending()` | `Load(id)`, `Play`, then the track ends: only `Playing` is sent | `play_task` becomes the load future, so `FinishedTrack` is sent at the end of the track | not executed | RespotLegacy.EndOfTrackAsWritten | RespotLegacy.EndOfTrackIntended |
| src/mpd/mod.rs:150-165 | `idle` with changes pending writes `changed: ...` and `OK`, then runs the emptied list, which writes another `OK` | pending `[Playlist]`, list `["idle"]`: output `changed: playlist\nOK\nOK\n` | one `changed:` block followed by one `OK` | not executed | MpdHandler.IdleWithChangesAsWritten | MpdHandler.IdleWithChangesIntended |
| src/mpd/mod.rs:195-201 | `if let Some(command)` binds a new `command`, so the `while command != "command_list_end"` guard never changes | lines `command_list_start`, `status`, `command_list_end`: the loop keeps reading after the end marker | the loop ends at `command_list_end` and the list runs | not executed | MpdHandler.ListNeverEndsAsWritten | MpdHandler.CommandListRoundTrip |
