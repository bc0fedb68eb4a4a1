/** Importing one playlist (`import_playlist` and `search_youtube_music` in
    playlist_importer.py): create the playlist, then for each song find its
    video id (searching when needed) and add it, counting successes,
    failures and searches, and report the first failures. The music service
    is a set of oracles: each remote call is answered by a reply value. */
module ImportRun {
  import opened Text
  import opened CsvImport

  /** One search result; `videoId` may be missing from it. */
  datatype SearchHit = SearchHit(videoId: Option<string>)

  /** What `yt.search` does: raise with a message, or return ranked results. */
  datatype SearchReply = SearchRaised(message: string) | SearchResults(hits: seq<SearchHit>)

  /** What `yt.add_playlist_items` does: return, or raise with a message. */
  datatype AddReply = AddReturned | AddRaised(message: string)

  /** What `yt.create_playlist` does: return the new playlist's id, or raise. */
  datatype CreateReply = Created(playlistId: string) | CreateRaised(message: string)

  const SongNotFound := "Song not found in search"
  const NoVideoId := "No video ID available"
  /** The text that marks an exception from the service as a success in disguise. */
  const SucceededMarker := "STATUS_SUCCEEDED"
  /** How many failed songs the final report lists one by one. */
  const ListedFailures: nat := 10

  /** The query `f"{title} {artist}"`. */
  function SearchQuery(title: string, artists: string): string
  {
    title + " " + artists
  }

  /** `search_youtube_music`: the first result's `videoId`; `None` when the
      search raises or finds nothing. Later results are never looked at. */
  function PickFirst(reply: SearchReply): (r: Option<string>)
    ensures reply.SearchRaised? ==> r == None
    ensures reply.SearchResults? && reply.hits == [] ==> r == None
    ensures reply.SearchResults? && reply.hits != [] ==> r == reply.hits[0].videoId
  {
    match reply
    case SearchRaised(_) => None
    case SearchResults(hits) => if hits == [] then None else hits[0].videoId
  }

  /** What happened to one song: whether it was searched for, the id passed
      to `add_playlist_items` if that was called, and the error recorded for
      it (`None` when it counts as successful). */
  datatype SongOutcome = SongOutcome(searched: bool, added: Option<string>, error: Option<string>)

  /** One pass of the loop body of `import_playlist` for song number `i`. */
  function ProcessSong(i: nat, song: Song, playlistId: string,
                       search: (nat, string) -> SearchReply,
                       add: (nat, string, string) -> AddReply): (o: SongOutcome)
    // A search happens exactly for a song without an id whose flag is set.
    ensures o.searched <==> !HasId(song.videoId) && song.searchNeeded
    // A song that has an id is added under that id, without a search.
    ensures HasId(song.videoId) ==> o.added == song.videoId
    // Without an id and without the flag: no call at all, and this error.
    ensures !HasId(song.videoId) && !song.searchNeeded ==> o == SongOutcome(false, None, Some(NoVideoId))
    // A search that yields no id fails the song without an add call.
    ensures o.searched && !HasId(PickFirst(search(i, SearchQuery(song.title, song.artists)))) ==>
              o == SongOutcome(true, None, Some(SongNotFound))
    // A search that yields an id adds the song under that id.
    ensures o.searched && HasId(PickFirst(search(i, SearchQuery(song.title, song.artists)))) ==>
              o.added == PickFirst(search(i, SearchQuery(song.title, song.artists)))
    // Only a non-empty id is ever added.
    ensures o.added.Some? ==> o.added.value != ""
    // Success exactly when the add call returned or raised with the marker.
    ensures o.error.None? <==>
              o.added.Some? && (add(i, playlistId, o.added.value).AddReturned?
                                || Contains(add(i, playlistId, o.added.value).message, SucceededMarker))
    ensures o.added.Some? && o.error.Some? ==> o.error == Some(add(i, playlistId, o.added.value).message)
    ensures o.added.None? ==> o.error == Some(NoVideoId) || o.error == Some(SongNotFound)
  {
    var searched := !HasId(song.videoId) && song.searchNeeded;
    var id := if searched then PickFirst(search(i, SearchQuery(song.title, song.artists))) else song.videoId;
    if searched && !HasId(id) then SongOutcome(true, None, Some(SongNotFound))
    else if !HasId(id) then SongOutcome(false, None, Some(NoVideoId))
    else
      match add(i, playlistId, id.value)
      case AddReturned => SongOutcome(searched, id, None)
      case AddRaised(m) => SongOutcome(searched, id, if Contains(m, SucceededMarker) then None else Some(m))
  }

  /** An entry of `failed_songs`. */
  datatype FailedSong = FailedSong(title: string, artists: string, error: string)

  /** The counters `successful`, `failed`, `searched` and the list `failed_songs`. */
  datatype ImportReport = ImportReport(successful: nat, failed: nat, searched: nat, failures: seq<FailedSong>)

  /** The counters after the first `n` songs. Every song counts as exactly
      one of successful or failed, and every failure is listed once. */
  function Tally(songs: seq<Song>, playlistId: string,
                 search: (nat, string) -> SearchReply,
                 add: (nat, string, string) -> AddReply, n: nat): (r: ImportReport)
    requires n <= |songs|
    ensures r.successful + r.failed == n
    ensures |r.failures| == r.failed
    ensures r.searched <= n
  {
    if n == 0 then ImportReport(0, 0, 0, [])
    else
      var prev := Tally(songs, playlistId, search, add, n - 1);
      var song := songs[n - 1];
      var o := ProcessSong(n - 1, song, playlistId, search, add);
      ImportReport(
        prev.successful + (if o.error.None? then 1 else 0),
        prev.failed + (if o.error.Some? then 1 else 0),
        prev.searched + (if o.searched then 1 else 0),
        prev.failures + (if o.error.Some? then [FailedSong(song.title, song.artists, o.error.value)] else []))
  }

  /** The description `import_playlist` gives the new playlist. */
  function Description(count: nat): string
  {
    "Imported playlist - " + Decimal(count) + " songs"
  }

  /** The `try` block of the loop of `import_playlist` for song number `i`:
      the message of the exception it ends with, if any, and whether it
      searched. It raises where the song's outcome is an error, and also
      where the add call raised with the success marker. */
  method TrySong(i: nat, song: Song, playlistId: string,
                 search: (nat, string) -> SearchReply,
                 add: (nat, string, string) -> AddReply)
    returns (error: Option<string>, searched: bool)
    ensures var o := ProcessSong(i, song, playlistId, search, add);
      && searched == o.searched
      && (o.error.Some? ==> error == o.error && !Contains(o.error.value, SucceededMarker))
      && (o.error.None? ==> error.None? || Contains(error.value, SucceededMarker))
  {
    OwnMessagesLackMarker();
    var videoId := song.videoId;
    error, searched := None, false;
    if !HasId(videoId) && song.searchNeeded {
      videoId := PickFirst(search(i, SearchQuery(song.title, song.artists)));
      searched := true;
      if !HasId(videoId) {
        error := Some(SongNotFound);
      }
    }
    if error.None? && !HasId(videoId) {
      error := Some(NoVideoId);
    }
    if error.None? {
      match add(i, playlistId, videoId.value) {
        case AddReturned =>
        case AddRaised(m) => error := Some(m);
      }
    }
  }

  /** The loop of `import_playlist` over the songs of a created playlist. */
  method AddSongs(songs: seq<Song>, playlistId: string,
                  search: (nat, string) -> SearchReply,
                  add: (nat, string, string) -> AddReply)
    returns (report: ImportReport)
    ensures report == Tally(songs, playlistId, search, add, |songs|)
  {
    var successful, failed, searched := 0, 0, 0;
    var failedSongs: seq<FailedSong> := [];
    var i := 0;
    while i < |songs|
      invariant 0 <= i <= |songs|
      invariant ImportReport(successful, failed, searched, failedSongs) == Tally(songs, playlistId, search, add, i)
    {
      var song := songs[i];
      var error, searchedOne := TrySong(i, song, playlistId, search, add);
      if searchedOne {
        searched := searched + 1;
      }
      // The `except` clause: count a failure, then undo it for a disguised success.
      if error.Some? {
        failed := failed + 1;
        if Contains(error.value, SucceededMarker) {
          successful := successful + 1;
          failed := failed - 1;
        } else {
          failedSongs := failedSongs + [FailedSong(song.title, song.artists, error.value)];
        }
      } else {
        successful := successful + 1;
      }
      i := i + 1;
    }
    return ImportReport(successful, failed, searched, failedSongs);
  }

  /** `import_playlist`: `ok` is its return value, true exactly when the
      playlist was created, whatever happened to the songs. */
  method ImportPlaylist(name: string, songs: seq<Song>,
                        create: (string, string) -> CreateReply,
                        search: (nat, string) -> SearchReply,
                        add: (nat, string, string) -> AddReply)
    returns (ok: bool, report: ImportReport)
    ensures ok <==> create(name, Description(|songs|)).Created?
    ensures ok ==> report == Tally(songs, create(name, Description(|songs|)).playlistId, search, add, |songs|)
    ensures ok ==> report.successful + report.failed == |songs| && |report.failures| == report.failed
    ensures !ok ==> report == ImportReport(0, 0, 0, [])
  {
    var reply := create(name, Description(|songs|));
    if reply.CreateRaised? {
      return false, ImportReport(0, 0, 0, []);
    }
    report := AddSongs(songs, reply.playlistId, search, add);
    ok := true;
  }

  // ----- What the counters mean -----

  /** The songs among the first `n` that have no id and have the search flag. */
  function Searchable(songs: seq<Song>, n: nat): nat
    requires n <= |songs|
  {
    if n == 0 then 0
    else Searchable(songs, n - 1) + (if !HasId(songs[n - 1].videoId) && songs[n - 1].searchNeeded then 1 else 0)
  }

  /** `searched` counts exactly the songs without an id whose flag is set,
      whatever the searches return. */
  lemma {:induction false} SearchedCount(songs: seq<Song>, playlistId: string,
                                         search: (nat, string) -> SearchReply,
                                         add: (nat, string, string) -> AddReply, n: nat)
    requires n <= |songs|
    ensures Tally(songs, playlistId, search, add, n).searched == Searchable(songs, n)
  {
    if n > 0 {
      SearchedCount(songs, playlistId, search, add, n - 1);
    }
  }

  /** The successful songs are those that reached an add call which returned
      or raised with the success marker. */
  function SucceededCount(songs: seq<Song>, playlistId: string,
                          search: (nat, string) -> SearchReply,
                          add: (nat, string, string) -> AddReply, n: nat): nat
    requires n <= |songs|
  {
    if n == 0 then 0
    else
      var o := ProcessSong(n - 1, songs[n - 1], playlistId, search, add);
      SucceededCount(songs, playlistId, search, add, n - 1)
      + (if o.added.Some? && (add(n - 1, playlistId, o.added.value).AddReturned?
                              || Contains(add(n - 1, playlistId, o.added.value).message, SucceededMarker))
         then 1 else 0)
  }

  /** Neither message the importer writes itself passes for a success. */
  lemma OwnMessagesLackMarker()
    ensures !Contains(SongNotFound, SucceededMarker) && !Contains(NoVideoId, SucceededMarker)
  {
    AbsentChar(SongNotFound, SucceededMarker, 6);
    AbsentChar(NoVideoId, SucceededMarker, 6);
  }

  /** `successful` counts the songs whose add call returned or raised with
      the success marker. */
  lemma {:induction false} TallySucceeded(songs: seq<Song>, playlistId: string,
                                          search: (nat, string) -> SearchReply,
                                          add: (nat, string, string) -> AddReply, n: nat)
    requires n <= |songs|
    ensures Tally(songs, playlistId, search, add, n).successful == SucceededCount(songs, playlistId, search, add, n)
  {
    if n > 0 {
      TallySucceeded(songs, playlistId, search, add, n - 1);
    }
  }

  /** `failed_songs` lists exactly the failed songs, in order: `idx` holds
      the numbers of the songs whose outcome is an error, increasing, and
      entry `j` is song `idx[j]` with its error. */
  lemma {:induction false} TallyFailures(songs: seq<Song>, playlistId: string,
                                         search: (nat, string) -> SearchReply,
                                         add: (nat, string, string) -> AddReply, n: nat)
    returns (idx: seq<nat>)
    requires n <= |songs|
    ensures var fs := Tally(songs, playlistId, search, add, n).failures;
      && |idx| == |fs|
      && (forall i, j :: 0 <= i < j < |idx| ==> idx[i] < idx[j])
      && (forall j :: 0 <= j < |idx| ==>
            && idx[j] < n
            && ProcessSong(idx[j], songs[idx[j]], playlistId, search, add).error.Some?
            && fs[j] == FailedSong(songs[idx[j]].title, songs[idx[j]].artists,
                                   ProcessSong(idx[j], songs[idx[j]], playlistId, search, add).error.value))
      && (forall k :: 0 <= k < n && ProcessSong(k, songs[k], playlistId, search, add).error.Some? ==> k in idx)
  {
    if n == 0 {
      return [];
    }
    var prev := TallyFailures(songs, playlistId, search, add, n - 1);
    if ProcessSong(n - 1, songs[n - 1], playlistId, search, add).error.Some? {
      idx := prev + [n - 1];
    } else {
      idx := prev;
    }
  }

  /** No listed failure carries the success marker in its error. */
  lemma {:induction false} FailuresLackMarker(songs: seq<Song>, playlistId: string,
                                              search: (nat, string) -> SearchReply,
                                              add: (nat, string, string) -> AddReply, n: nat)
    requires n <= |songs|
    ensures forall f :: f in Tally(songs, playlistId, search, add, n).failures ==> !Contains(f.error, SucceededMarker)
  {
    if n > 0 {
      FailuresLackMarker(songs, playlistId, search, add, n - 1);
      OwnMessagesLackMarker();
    }
  }

  // ----- The final report -----

  /** A line of the failure report: one failed song, or "... and N more". */
  datatype ReportLine = FailureLine(song: FailedSong) | MoreLine(count: nat)

  /** The failure section `import_playlist` prints: nothing when no song
      failed, else the first ten failures in order, then a line counting the
      rest when there are more than ten. */
  function FailureReport(r: ImportReport): (lines: seq<ReportLine>)
    ensures r.failed == 0 ==> lines == []
    ensures r.failed > 0 ==> |lines| == (if |r.failures| > ListedFailures then ListedFailures + 1 else |r.failures|)
    ensures |lines| <= ListedFailures + 1
    ensures forall k :: 0 <= k < |lines| && k < ListedFailures && k < |r.failures| ==> lines[k] == FailureLine(r.failures[k])
    ensures r.failed > 0 && |r.failures| > ListedFailures ==>
              lines[ListedFailures] == MoreLine(|r.failures| - ListedFailures)
  {
    if r.failed == 0 then []
    else
      var shown := if |r.failures| > ListedFailures then r.failures[..ListedFailures] else r.failures;
      seq(|shown|, k requires 0 <= k < |shown| => FailureLine(shown[k]))
      + (if |r.failures| > ListedFailures then [MoreLine(|r.failures| - ListedFailures)] else [])
  }

  /** The end-to-end case: a song with a direct id, one found by search, and
      one with neither id nor title, against a service that finds and adds
      everything. Two succeed, one fails without any call, one search. */
  lemma RoadTripScenario(pid: string)
    ensures var songs := [Song(Some("abc12345678"), "", "", false),
                          Song(None, "Song A", "Band X", true),
                          Song(None, "", "", false)];
            var search := (i: nat, q: string) => SearchResults([SearchHit(Some("xyz98765432"))]);
            var add := (i: nat, p: string, v: string) => AddReturned;
            Tally(songs, pid, search, add, 3) == ImportReport(2, 1, 1, [FailedSong("", "", NoVideoId)])
  {
    var songs := [Song(Some("abc12345678"), "", "", false),
                  Song(None, "Song A", "Band X", true),
                  Song(None, "", "", false)];
    var search := (i: nat, q: string) => SearchResults([SearchHit(Some("xyz98765432"))]);
    var add := (i: nat, p: string, v: string) => AddReturned;
    assert Tally(songs, pid, search, add, 1) == ImportReport(1, 0, 0, []);
    assert Tally(songs, pid, search, add, 2) == ImportReport(2, 0, 1, []);
  }

  // ----- Songs from a Spotify playlist -----

  /** A track of a Spotify playlist as `parse_spotify_playlist` records it:
      no video id and no `search_needed` key, which `song.get` reads as false. */
  function SpotifySongAsWritten(title: string, artists: string): Song
  {
    Song(None, title, artists, false)
  }

  /** Such a song is never searched for and always fails, whatever the service answers. */
  lemma SpotifySongNeverSearched(i: nat, title: string, artists: string, playlistId: string,
                                 search: (nat, string) -> SearchReply, add: (nat, string, string) -> AddReply)
    ensures ProcessSong(i, SpotifySongAsWritten(title, artists), playlistId, search, add)
              == SongOutcome(false, None, Some(NoVideoId))
  {
  }

  /** The record as the comment beside it intends ("will search for this"):
      flagged for search when it has a title, as the CSV reader does. */
  function SpotifySong(title: string, artists: string): (s: Song)
    ensures !HasId(s.videoId) && s.title == title && s.artists == artists
    ensures s.searchNeeded <==> title != ""
  {
    Song(None, title, artists, title != "")
  }

  /** A titled Spotify track is searched for, and is added under the id the
      search finds whenever that id is not empty. */
  lemma SpotifySongSearched(i: nat, title: string, artists: string, playlistId: string,
                            search: (nat, string) -> SearchReply, add: (nat, string, string) -> AddReply)
    requires title != ""
    ensures var o := ProcessSong(i, SpotifySong(title, artists), playlistId, search, add);
            var found := PickFirst(search(i, SearchQuery(title, artists)));
            && o.searched
            && (HasId(found) ==> o.added == found)
            && (!HasId(found) ==> o.error == Some(SongNotFound))
  {
  }
}
