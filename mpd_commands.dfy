/** The command implementations' reply builders (src/mpd/mpd_commands.rs).
    Results of catalog calls (the user's playlists, the current user, a
    playlist's tracks, a track lookup) are inputs of these builders. */
module MpdCommands {
  import opened Base
  import opened Text
  import opened Tracks
  import Respot

  /** Every command implementation the registries bind verbs to. */
  datatype CommandKind =
    | Status | Stats | ListPlaylists | ListPlaylistInfo | Add | Play | Pause | Next | Prev | Clear
    | PlaylistInfo | CurrentSong | SetVol | Volume | DeleteId | UrlHandlers | Outputs | Decoders | TagTypes

  /** What a command returns: its reply lines, or an error. */
  type Reply = Result<seq<string>>

  /** A playlist as the catalog lists it. */
  datatype Playlist = Playlist(name: string, id: string)

  // ----- status and stats: constant replies -----

  const StatusKeys: seq<string> :=
    ["repeat", "random", "single", "consume", "playlist", "playlistlength", "mixrampdb", "state"]
  const StatusValues: seq<string> := ["0", "0", "0", "0", "1", "0", "0.00000", "stop"]

  /** `StatusCommand`: the same eight lines whatever the argument or the queue. */
  function StatusReply(arg: Option<string>): (r: Reply)
    ensures r.Ok? && |r.value| == 8
  {
    Ok(Fields(StatusKeys, StatusValues))
  }

  /** The status reply always reports an empty, stopped playlist, using the
      same word the player's `Display` gives a stopped player. */
  lemma StatusReportsStopped(arg: Option<string>)
    ensures Lookup(StatusReply(arg).value, "playlistlength") == Some("0")
    ensures Lookup(StatusReply(arg).value, "state") == Some(Respot.Display(Respot.Stopped))
  {
    assert DistinctKeys(StatusKeys);
    LookupFields(StatusKeys, StatusValues, 5);
    LookupFields(StatusKeys, StatusValues, 7);
  }

  /** `StatsCommand`: always zero uptime and zero play time. */
  function StatsReply(arg: Option<string>): (r: Reply)
    ensures r.Ok? && |r.value| == 2
  {
    Ok(Fields(["uptime", "playtime"], ["0", "0"]))
  }

  lemma StatsReportsZero(arg: Option<string>)
    ensures Lookup(StatsReply(arg).value, "uptime") == Some("0")
    ensures Lookup(StatsReply(arg).value, "playtime") == Some("0")
  {
    assert DistinctKeys(["uptime", "playtime"]);
    LookupFields(["uptime", "playtime"], ["0", "0"], 0);
    LookupFields(["uptime", "playtime"], ["0", "0"], 1);
  }

  // ----- listplaylists -----

  const UnknownModification := "Last-Modified: 1970-01-01T00:00:00Z"

  /** `ListPlaylistsCommand`: two lines per playlist, in catalog order; a failed
      fetch gives an empty successful reply. */
  method ListPlaylistsReply(arg: Option<string>, fetched: Result<seq<Playlist>>) returns (r: Reply)
    ensures r.Ok?
    ensures fetched.Err? ==> r.value == []
    ensures fetched.Ok? ==> |r.value| == 2 * |fetched.value|
    ensures fetched.Ok? ==> forall i :: 0 <= i < |fetched.value| ==>
              r.value[2 * i] == "playlist: " + fetched.value[i].name &&
              r.value[2 * i + 1] == UnknownModification
  {
    var lines: seq<string> := [];
    if fetched.Ok? {
      var playlists := fetched.value;
      for k := 0 to |playlists|
        invariant |lines| == 2 * k
        invariant forall i :: 0 <= i < k ==>
                    lines[2 * i] == "playlist: " + playlists[i].name && lines[2 * i + 1] == UnknownModification
      {
        lines := lines + ["playlist: " + playlists[k].name, UnknownModification];
      }
    }
    r := Ok(lines);
  }

  // ----- listplaylistinfo -----

  /** Index of the first playlist with exactly this name. */
  function FindPlaylist(playlists: seq<Playlist>, name: string): (r: Option<nat>)
    ensures r.Some? ==> r.value < |playlists| && playlists[r.value].name == name
    ensures r.Some? ==> forall j :: 0 <= j < r.value ==> playlists[j].name != name
    ensures r.None? ==> forall j :: 0 <= j < |playlists| ==> playlists[j].name != name
  {
    if playlists == [] then None
    else if playlists[0].name == name then Some(0)
    else match FindPlaylist(playlists[1..], name) {
      case None => None
      case Some(j) => Some(j + 1)
    }
  }

  /** `get_playlist_by_name`: scans the fetched playlists and returns the first
      one whose name matches; a failed fetch finds nothing. */
  method GetPlaylistByName(fetched: Result<seq<Playlist>>, name: string) returns (r: Option<Playlist>)
    ensures fetched.Err? ==> r.None?
    ensures fetched.Ok? ==> r == match FindPlaylist(fetched.value, name) {
              case None => None
              case Some(i) => Some(fetched.value[i]) }
  {
    if fetched.Ok? {
      var playlists := fetched.value;
      for k := 0 to |playlists|
        invariant forall j :: 0 <= j < k ==> playlists[j].name != name
      {
        if playlists[k].name == name {
          return Some(playlists[k]);
        }
      }
    }
    return None;
  }

  /** `get_artists`: the artist names joined with ';'. */
  function GetArtists(artists: seq<Artist>): (r: string)
    ensures artists == [] ==> r == ""
    ensures |artists| == 1 ==> r == artists[0].name
  {
    Join(ArtistNames(artists), ";")
  }

  lemma GetArtistsRoundTrip(artists: seq<Artist>)
    requires |artists| >= 1
    requires forall i :: 0 <= i < |artists| ==> ';' !in artists[i].name
    ensures Split(GetArtists(artists), ';') == ArtistNames(artists)
  {
    SplitJoin(ArtistNames(artists), ';');
  }

  /** The keys of one track block of `listplaylistinfo`. */
  const BlockKeys: seq<string> :=
    ["file", "Last-Modified", "Artist", "AlbumArtist", "Title", "Album", "Time", "duration"]

  predicate Printable(t: FullTrack) {
    t.id.Some? && t.album.releaseDate.Some?
  }

  /** The eight lines written for one non-local track; id and release date
      are unwrapped. */
  function TrackBlock(t: FullTrack): (lines: seq<string>)
    requires Printable(t)
    ensures |lines| == |BlockKeys| == 8
  {
    Fields(BlockKeys,
      [ t.id.value, t.album.releaseDate.value, GetArtists(t.artists), GetArtists(t.album.artists),
        t.name, t.album.name, NatToString(t.durationMs / 1000), NatToString(t.durationMs / 1000) ])
  }

  /** Tracks up to the first local one must be printable. */
  predicate Renderable(items: seq<Option<FullTrack>>) {
    items == [] ||
    match items[0] {
      case None => Renderable(items[1..])
      case Some(t) => t.isLocal || (Printable(t) && Renderable(items[1..]))
    }
  }

  predicate NoLocal(items: seq<Option<FullTrack>>) {
    forall i :: 0 <= i < |items| ==> items[i].None? || !items[i].value.isLocal
  }

  /** The lines the track loop writes: empty entries are skipped and the
      first local track ends the loop. */
  function TrackLines(items: seq<Option<FullTrack>>): (lines: seq<string>)
    requires Renderable(items)
    ensures |lines| % 8 == 0
  {
    if items == [] then []
    else match items[0] {
      case None => TrackLines(items[1..])
      case Some(t) => if t.isLocal then [] else TrackBlock(t) + TrackLines(items[1..])
    }
  }

  /** A prefix without local tracks contributes its blocks and then the rest
      is rendered as if on its own. */
  lemma {:induction false} TrackLinesAppend(pre: seq<Option<FullTrack>>, post: seq<Option<FullTrack>>)
    requires NoLocal(pre) && Renderable(pre + post)
    ensures Renderable(pre) && Renderable(post)
    ensures TrackLines(pre + post) == TrackLines(pre) + TrackLines(post)
  {
    if pre == [] {
      assert pre + post == post;
    } else {
      var all := pre + post;
      assert all[0] == pre[0] && all[1..] == pre[1..] + post;
      TrackLinesAppend(pre[1..], post);
    }
  }

  /** Nothing after the first local track is written. */
  lemma StopsAtLocalTrack(pre: seq<Option<FullTrack>>, local: FullTrack, post: seq<Option<FullTrack>>)
    requires local.isLocal && NoLocal(pre) && Renderable(pre + [Some(local)] + post)
    ensures Renderable(pre)
    ensures TrackLines(pre + [Some(local)] + post) == TrackLines(pre)
  {
    assert pre + [Some(local)] + post == pre + ([Some(local)] + post);
    TrackLinesAppend(pre, [Some(local)] + post);
  }

  /** The `Time` and `duration` lines of a block agree with each other and with
      the reply `Track::to_mpd_format` gives for the same catalog track, and so
      do its artist lines. */
  lemma TrackBlockAgreesWithTrackFormat(t: FullTrack, pos: i32)
    requires Printable(t)
    ensures |TrackBlock(t)| == 8
    ensures Lookup(TrackBlock(t), "Time") == Lookup(TrackBlock(t), "duration")
    ensures Lookup(TrackBlock(t), "Time") == Lookup(ToMpdFormat(FromFullTrack(t), pos), "Time")
    ensures Lookup(TrackBlock(t), "Artist") == Lookup(ToMpdFormat(FromFullTrack(t), pos), "Artist")
    ensures Lookup(TrackBlock(t), "file") == Lookup(ToMpdFormat(FromFullTrack(t), pos), "file")
  {
    var values := [ t.id.value, t.album.releaseDate.value, GetArtists(t.artists), GetArtists(t.album.artists),
                    t.name, t.album.name, NatToString(t.durationMs / 1000), NatToString(t.durationMs / 1000) ];
    assert DistinctKeys(BlockKeys);
    LookupFields(BlockKeys, values, 0);
    LookupFields(BlockKeys, values, 2);
    LookupFields(BlockKeys, values, 6);
    LookupFields(BlockKeys, values, 7);
    ToMpdFormatFields(FromFullTrack(t), pos);
  }

  /** One more entry that is not a local track: its block, if any, follows
      the lines of the entries before it. */
  lemma TrackLinesStep(items: seq<Option<FullTrack>>, k: nat)
    requires k < |items| && Renderable(items) && NoLocal(items[..k]) && Renderable(items[..k])
    requires items[k].None? || !items[k].value.isLocal
    ensures NoLocal(items[..k + 1]) && Renderable(items[..k + 1])
    ensures items[k].Some? ==> Printable(items[k].value)
    ensures items[k].Some? ==> TrackLines(items[..k + 1]) == TrackLines(items[..k]) + TrackBlock(items[k].value)
    ensures items[k].None? ==> TrackLines(items[..k + 1]) == TrackLines(items[..k])
  {
    assert items[..k + 1] == items[..k] + [items[k]];
    assert items[..k + 1] + items[k + 1..] == items;
    TrackLinesAppend(items[..k + 1], items[k + 1..]);
    TrackLinesAppend(items[..k], [items[k]]);
    if items[k].Some? {
      assert TrackLines([items[k]]) == TrackBlock(items[k].value) + TrackLines([]);
    } else {
      assert TrackLines([items[k]]) == TrackLines([]);
    }
  }

  /** The track loop of `ListPlaylistInfoCommand`: empty entries are
      skipped and the first local track ends the loop. */
  method RenderTracks(items: seq<Option<FullTrack>>) returns (lines: seq<string>)
    requires Renderable(items)
    ensures lines == TrackLines(items)
  {
    lines := [];
    var k := 0;
    while k < |items|
      invariant 0 <= k <= |items|
      invariant NoLocal(items[..k]) && Renderable(items[..k])
      invariant lines == TrackLines(items[..k])
    {
      assert items[..k] + [items[k]] + items[k + 1..] == items;
      if items[k].Some? && items[k].value.isLocal {
        StopsAtLocalTrack(items[..k], items[k].value, items[k + 1..]);
        return;
      }
      TrackLinesStep(items, k);
      if items[k].Some? {
        lines := lines + TrackBlock(items[k].value);
      }
      k := k + 1;
    }
    assert items[..k] == items;
  }

  /** `ListPlaylistInfoCommand`: `ACK` when no playlist has the name, an error
      when the current user cannot be fetched, nothing when the playlist's
      tracks cannot be fetched, and otherwise the track blocks. */
  method ListPlaylistInfoReply(
    arg: Option<string>,
    playlists: Result<seq<Playlist>>,
    user: Result<string>,
    tracks: Result<seq<Option<FullTrack>>>)
    returns (r: Reply)
    requires arg.Some?
    requires tracks.Ok? ==> Renderable(tracks.value)
    ensures (playlists.Err? || FindPlaylist(playlists.value, arg.value).None?) ==> r == Ok(["ACK"])
    ensures playlists.Ok? && FindPlaylist(playlists.value, arg.value).Some? ==>
              (user.Err? ==> r.Err?) &&
              (user.Ok? && tracks.Err? ==> r == Ok([])) &&
              (user.Ok? && tracks.Ok? ==> r == Ok(TrackLines(tracks.value)))
  {
    var found := GetPlaylistByName(playlists, arg.value);
    if found.None? {
      return Ok(["ACK"]);
    }
    if user.Err? {
      return Err;
    }
    var lines: seq<string> := [];
    if tracks.Ok? {
      lines := RenderTracks(tracks.value);
    }
    r := Ok(lines);
  }

  // ----- add -----

  /** `AddCommand`: looks the captured id up in the catalog; the reply is empty
      on success and an error otherwise; the queue is not touched. */
  function AddReply(arg: Option<string>, catalog: string -> Result<FullTrack>): (r: Reply)
    requires arg.Some?
    ensures r.Ok? <==> catalog(arg.value).Ok?
    ensures r.Ok? ==> r.value == []
  {
    match catalog(arg.value)
    case Ok(_) => Ok([])
    case Err => Err
  }
}
