/** The internal track record, its conversion from a catalog track and its
    rendering as protocol lines (src/track.rs). */
module Tracks {
  import opened Base
  import opened Text

  datatype Artist = Artist(name: string)

  datatype Album = Album(name: string, id: Option<string>, artists: seq<Artist>, releaseDate: Option<string>)

  /** The catalog's full track record, reduced to the fields the core reads. */
  datatype FullTrack = FullTrack(
    id: Option<string>,
    name: string,
    trackNumber: u32,
    discNumber: i32,
    durationMs: u32,
    artists: seq<Artist>,
    album: Album,
    uri: string,
    isLocal: bool)

  /** The queue's track record. `addedAt` is always `None` in the core, so its
      timestamp type is reduced to a string. */
  datatype Track = Track(
    id: Option<string>,
    title: string,
    trackNumber: u32,
    discNumber: i32,
    duration: u32,
    artists: seq<string>,
    album: string,
    albumId: Option<string>,
    albumArtists: seq<string>,
    url: string,
    addedAt: Option<string>,
    date: string)

  function ArtistNames(artists: seq<Artist>): (names: seq<string>)
    ensures |names| == |artists|
    ensures forall i :: 0 <= i < |artists| ==> names[i] == artists[i].name
  {
    seq(|artists|, i requires 0 <= i < |artists| => artists[i].name)
  }

  /** `From<&FullTrack> for Track`; the release date is unwrapped. */
  function FromFullTrack(t: FullTrack): (r: Track)
    requires t.album.releaseDate.Some?
    ensures r.id == t.id && r.url == t.uri && r.addedAt.None?
    ensures |r.artists| == |t.artists| && |r.albumArtists| == |t.album.artists|
  {
    Track(t.id, t.name, t.trackNumber, t.discNumber, t.durationMs,
          ArtistNames(t.artists), t.album.name, t.album.id,
          ArtistNames(t.album.artists), t.uri, None, t.album.releaseDate.value)
  }

  /** The protocol keys of a track reply, in the order they are written. */
  const TrackKeys: seq<string> :=
    ["file", "Artist", "AlbumArtist", "Title", "Album", "Track", "Date", "Time", "duration", "Pos", "Id"]

  function Field(key: string, value: string): (line: string)
    ensures StartsWith(line, key + ": ") && line[|key| + 2..] == value
  {
    assert (key + ": " + value)[..|key| + 2] == key + ": ";
    key + ": " + value
  }

  /** Lines `key: value`, one per key, in order. */
  function Fields(keys: seq<string>, values: seq<string>): (lines: seq<string>)
    requires |keys| == |values|
    ensures |lines| == |keys|
  {
    seq(|keys|, i requires 0 <= i < |keys| => Field(keys[i], values[i]))
  }

  /** The values of a track reply, in the order of `TrackKeys`. */
  function TrackValues(t: Track, pos: i32): seq<string>
    requires t.id.Some?
  {
    [ t.id.value, Join(t.artists, ";"), Join(t.albumArtists, ";"), t.title, t.album,
      NatToString(t.trackNumber), t.date, NatToString(t.duration / 1000),
      NatToString(t.duration / 1000), IntToString(pos), IntToString(pos) ]
  }

  /** `Track::to_mpd_format`; the id is unwrapped. */
  function ToMpdFormat(t: Track, pos: i32): (lines: seq<string>)
    requires t.id.Some?
    ensures |lines| == |TrackKeys| == 11
    ensures forall i :: 0 <= i < 11 ==> StartsWith(lines[i], TrackKeys[i] + ": ")
  {
    Fields(TrackKeys, TrackValues(t, pos))
  }

  /** The key of a protocol line: everything before its first ':'. */
  function KeyOf(line: string): string
  {
    TakeUntil(line, ':')
  }

  /** Reading a reply back: the value of the first line carrying `key`. */
  function Lookup(lines: seq<string>, key: string): (r: Option<string>)
  {
    if lines == [] then None
    else if KeyOf(lines[0]) == key && |key| + 2 <= |lines[0]| then Some(lines[0][|key| + 2..])
    else Lookup(lines[1..], key)
  }

  lemma {:induction false} KeyOfField(key: string, value: string)
    requires ':' !in key
    ensures KeyOf(Field(key, value)) == key
  {
    assert Field(key, value) == key + (": " + value);
    TakeUntilThen(key, ':', ": " + value);
  }

  predicate DistinctKeys(keys: seq<string>) {
    (forall i :: 0 <= i < |keys| ==> ':' !in keys[i]) &&
    (forall i, j :: 0 <= i < j < |keys| ==> keys[i] != keys[j])
  }

  /** Each value of a reply built from distinct keys can be read back by its
      key. */
  lemma {:induction false} LookupFields(keys: seq<string>, values: seq<string>, i: nat)
    requires |keys| == |values| && DistinctKeys(keys) && i < |keys|
    ensures Lookup(Fields(keys, values), keys[i]) == Some(values[i])
  {
    var lines := Fields(keys, values);
    KeyOfField(keys[0], values[0]);
    if i > 0 {
      assert lines[1..] == Fields(keys[1..], values[1..]);
      LookupFields(keys[1..], values[1..], i - 1);
    } else {
      assert lines[0][|keys[0]| + 2..] == values[0];
    }
  }

  /** The reply has exactly one line per key, in the fixed order. */
  lemma ToMpdFormatKeys(t: Track, pos: i32)
    requires t.id.Some?
    ensures |ToMpdFormat(t, pos)| == |TrackKeys| == 11
    ensures forall i :: 0 <= i < 11 ==> KeyOf(ToMpdFormat(t, pos)[i]) == TrackKeys[i]
  {
    forall i | 0 <= i < 11 ensures KeyOf(ToMpdFormat(t, pos)[i]) == TrackKeys[i] {
      KeyOfField(TrackKeys[i], TrackValues(t, pos)[i]);
    }
  }

  /** Reading each field back from the reply yields the track's values:
      `Pos` and `Id` both carry the position, `Time` and `duration` both carry
      whole seconds, and artists are joined with ';'. */
  lemma ToMpdFormatFields(t: Track, pos: i32)
    requires t.id.Some?
    ensures Lookup(ToMpdFormat(t, pos), "file") == Some(t.id.value)
    ensures Lookup(ToMpdFormat(t, pos), "Artist") == Some(Join(t.artists, ";"))
    ensures Lookup(ToMpdFormat(t, pos), "AlbumArtist") == Some(Join(t.albumArtists, ";"))
    ensures Lookup(ToMpdFormat(t, pos), "Title") == Some(t.title)
    ensures Lookup(ToMpdFormat(t, pos), "Album") == Some(t.album)
    ensures Lookup(ToMpdFormat(t, pos), "Track") == Some(NatToString(t.trackNumber))
    ensures Lookup(ToMpdFormat(t, pos), "Date") == Some(t.date)
    ensures Lookup(ToMpdFormat(t, pos), "Time") == Some(NatToString(t.duration / 1000))
    ensures Lookup(ToMpdFormat(t, pos), "duration") == Lookup(ToMpdFormat(t, pos), "Time")
    ensures Lookup(ToMpdFormat(t, pos), "Pos") == Some(IntToString(pos))
    ensures Lookup(ToMpdFormat(t, pos), "Id") == Lookup(ToMpdFormat(t, pos), "Pos")
  {
    var keys, values := TrackKeys, TrackValues(t, pos);
    assert DistinctKeys(keys);
    forall i | 0 <= i < 11 ensures Lookup(ToMpdFormat(t, pos), keys[i]) == Some(values[i]) {
      LookupFields(keys, values, i);
    }
    assert keys[0] == "file" && keys[1] == "Artist" && keys[2] == "AlbumArtist";
    assert keys[3] == "Title" && keys[4] == "Album" && keys[5] == "Track" && keys[6] == "Date";
    assert keys[7] == "Time" && keys[8] == "duration" && keys[9] == "Pos" && keys[10] == "Id";
  }

  /** Converting a catalog track keeps its id, title, duration, URI, artist
      order and album artist order, and leaves `addedAt` empty. */
  lemma FromFullTrackFields(t: FullTrack)
    requires t.album.releaseDate.Some?
    ensures FromFullTrack(t).id == t.id && FromFullTrack(t).title == t.name
    ensures FromFullTrack(t).duration == t.durationMs && FromFullTrack(t).url == t.uri
    ensures FromFullTrack(t).addedAt.None? && FromFullTrack(t).date == t.album.releaseDate.value
    ensures forall i :: 0 <= i < |t.artists| ==> FromFullTrack(t).artists[i] == t.artists[i].name
    ensures |FromFullTrack(t).artists| == |t.artists|
    ensures |FromFullTrack(t).albumArtists| == |t.album.artists|
    ensures forall i :: 0 <= i < |t.album.artists| ==> FromFullTrack(t).albumArtists[i] == t.album.artists[i].name
  {
  }

  /** The artist line of a converted track splits back into the artist names
      when no name contains ';'. */
  lemma ArtistLineRoundTrip(t: FullTrack, pos: i32)
    requires t.album.releaseDate.Some? && t.id.Some? && |t.artists| >= 1
    requires forall i :: 0 <= i < |t.artists| ==> ';' !in t.artists[i].name
    ensures Lookup(ToMpdFormat(FromFullTrack(t), pos), "Artist").Some?
    ensures Split(Lookup(ToMpdFormat(FromFullTrack(t), pos), "Artist").value, ';') == ArtistNames(t.artists)
  {
    ToMpdFormatFields(FromFullTrack(t), pos);
    SplitJoin(ArtistNames(t.artists), ';');
  }
}
