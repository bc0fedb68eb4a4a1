/** The exporter's playlist side (playlist_exporter.py): the projection of
    a track onto a CSV row in `_write_csv`, the title match of
    `export_by_name` and the loop of `export_all`. The YouTube Music client
    and the file system are oracles: `fetch` answers `get_playlist` and
    `write` reports whether the CSV file could be written. */
module Exporter {
  import opened Text
  import opened FileNames
  import CsvImport

  /** One entry of a track's `artists` list; only its `name` is read. */
  datatype ArtistRef = ArtistRef(name: Option<string>)

  /** The keys of a track that `_write_csv` reads; `altVideoId` is the
      `video_id` key. */
  datatype Track = Track(
    title: Option<string>,
    name: Option<string>,
    videoId: Option<string>,
    altVideoId: Option<string>,
    id: Option<string>,
    artists: Option<seq<ArtistRef>>)

  /** Python's `a or b` for a string that may be `None`. */
  function Or(a: Option<string>, b: string): (r: string)
    ensures a.Some? && a.value != "" ==> r == a.value
    ensures a.None? || a.value == "" ==> r == b
  {
    if a.Some? && a.value != "" then a.value else b
  }

  /** `t.get('title') or t.get('name') or ''`. */
  function TitleOf(t: Track): string
  {
    Or(t.title, Or(t.name, ""))
  }

  /** `t.get('videoId') or t.get('video_id') or t.get('id') or ''`. */
  function MediaIdOf(t: Track): string
  {
    Or(t.videoId, Or(t.altVideoId, Or(t.id, "")))
  }

  /** The artist names that are present and non-empty, in list order. */
  function NamedArtists(artists: seq<ArtistRef>): (r: seq<string>)
    ensures |r| <= |artists|
    ensures forall k :: 0 <= k < |r| ==> r[k] != ""
    ensures forall x :: x in r <==> exists k :: 0 <= k < |artists| && artists[k].name == Some(x) && x != ""
  {
    if artists == [] then []
    else
      var rest := NamedArtists(artists[1..]);
      assert forall x :: (exists k :: 0 <= k < |artists[1..]| && artists[1..][k].name == Some(x) && x != "")
                      ==> exists k :: 0 <= k < |artists| && artists[k].name == Some(x) && x != "" by {
        forall x | exists k :: 0 <= k < |artists[1..]| && artists[1..][k].name == Some(x) && x != ""
          ensures exists k :: 0 <= k < |artists| && artists[k].name == Some(x) && x != ""
        {
          var k :| 0 <= k < |artists[1..]| && artists[1..][k].name == Some(x) && x != "";
          assert artists[k + 1] == artists[1..][k];
        }
      }
      assert forall x :: (exists k :: 0 <= k < |artists| && artists[k].name == Some(x) && x != "")
                      ==> (artists[0].name == Some(x) || exists k :: 0 <= k < |artists[1..]| && artists[1..][k].name == Some(x) && x != "") by {
        forall x | exists k :: 0 <= k < |artists| && artists[k].name == Some(x) && x != ""
          ensures artists[0].name == Some(x) || exists k :: 0 <= k < |artists[1..]| && artists[1..][k].name == Some(x) && x != ""
        {
          var k :| 0 <= k < |artists| && artists[k].name == Some(x) && x != "";
          if k > 0 {
            assert artists[1..][k - 1] == artists[k];
          }
        }
      }
      if artists[0].name.Some? && artists[0].name.value != "" then [artists[0].name.value] + rest else rest
  }

  lemma {:induction false} NamedArtistsSplits(a: seq<ArtistRef>, b: seq<ArtistRef>)
    ensures NamedArtists(a + b) == NamedArtists(a) + NamedArtists(b)
    decreases |a|
  {
    if a != [] {
      assert (a + b)[0] == a[0] && (a + b)[1..] == a[1..] + b;
      NamedArtistsSplits(a[1..], b);
      var head := if a[0].name.Some? && a[0].name.value != "" then [a[0].name.value] else [];
      assert head + (NamedArtists(a[1..]) + NamedArtists(b))
             == (head + NamedArtists(a[1..])) + NamedArtists(b);
    } else {
      assert a + b == b;
    }
  }

  /** Each entry contributes its name, in place, exactly when the name is
      present and not empty: the names keep list order and multiplicity. */
  lemma NamedArtistsInPlace(a: seq<ArtistRef>, x: ArtistRef, b: seq<ArtistRef>)
    ensures NamedArtists(a + [x] + b)
            == NamedArtists(a) + (if x.name.Some? && x.name.value != "" then [x.name.value] else []) + NamedArtists(b)
  {
    NamedArtistsSplits(a + [x], b);
    NamedArtistsSplits(a, [x]);
    assert [x][1..] == [];
  }

  /** The artists cell: the named artists joined with ", ", or empty when the
      track has no artist list or an empty one. */
  function ArtistsText(t: Track): string
  {
    if t.artists.Some? && t.artists.value != [] then Join(NamedArtists(t.artists.value), ", ") else ""
  }

  const CsvHeader: seq<string> := ["Title", "Artists", "MediaId"]

  /** The row written for one track. */
  function RowOf(t: Track): seq<string>
  {
    [TitleOf(t), ArtistsText(t), MediaIdOf(t)]
  }

  /** The title falls back from `title` to `name` to empty, the media id
      from `videoId` to `video_id` to `id` to empty. */
  lemma RowOfSpec(t: Track)
    ensures |RowOf(t)| == |CsvHeader|
    ensures RowOf(t)[0] == "" <==> Or(t.title, "") == "" && Or(t.name, "") == ""
    ensures Or(t.title, "") == "" ==> RowOf(t)[0] == Or(t.name, "")
    ensures Or(t.title, "") != "" ==> RowOf(t)[0] == t.title.value
    ensures RowOf(t)[2] == "" <==> Or(t.videoId, "") == "" && Or(t.altVideoId, "") == "" && Or(t.id, "") == ""
    ensures Or(t.videoId, "") != "" ==> RowOf(t)[2] == t.videoId.value
    ensures Or(t.videoId, "") == "" && Or(t.altVideoId, "") != "" ==> RowOf(t)[2] == t.altVideoId.value
    ensures Or(t.videoId, "") == "" && Or(t.altVideoId, "") == "" ==> RowOf(t)[2] == Or(t.id, "")
    ensures t.artists.None? || t.artists == Some([]) ==> RowOf(t)[1] == ""
  {
  }

  /** Every line of the file: the header, then one row per track. */
  function CsvLines(tracks: seq<Track>): (r: seq<seq<string>>)
    ensures |r| == |tracks| + 1 && r[0] == CsvHeader
    ensures forall k :: 0 <= k < |tracks| ==> r[k + 1] == RowOf(tracks[k])
  {
    [CsvHeader] + seq(|tracks|, k requires 0 <= k < |tracks| => RowOf(tracks[k]))
  }

  /** The writing loop of `_write_csv`. */
  method WriteCsv(tracks: seq<Track>) returns (lines: seq<seq<string>>)
    ensures |lines| == |tracks| + 1 && lines[0] == CsvHeader
    ensures forall k :: 0 <= k < |tracks| ==> lines[k + 1] == RowOf(tracks[k])
    ensures lines == CsvLines(tracks)
  {
    lines := [CsvHeader];
    for i := 0 to |tracks|
      invariant |lines| == i + 1 && lines[0] == CsvHeader
      invariant forall k :: 0 <= k < i ==> lines[k + 1] == RowOf(tracks[k])
    {
      lines := lines + [RowOf(tracks[i])];
    }
  }

  /** The file as `csv.DictReader` sees it: the first line names the columns. */
  function AsTable(lines: seq<seq<string>>): CsvImport.CsvTable
  {
    if lines == [] then CsvImport.CsvTable(None, [])
    else CsvImport.CsvTable(Some(lines[0]), lines[1..])
  }

  /** The song the importer makes of an exported track: the stripped cells,
      the stripped media id as the video id, and a search only when that id
      is empty and the title is not. */
  function ImportedSong(t: Track): (s: CsvImport.Song)
    ensures s.videoId.Some? && s.title == Strip(TitleOf(t))
    ensures s.searchNeeded <==> s.videoId.value == "" && s.title != ""
  {
    CsvImport.Song(Some(Strip(MediaIdOf(t))), Strip(TitleOf(t)), Strip(ArtistsText(t)),
                   Strip(MediaIdOf(t)) == "" && Strip(TitleOf(t)) != "")
  }

  /** The exported columns are found where they were written. */
  lemma ExportedCells(row: seq<string>)
    requires |row| == 3
    ensures CsvImport.Lookup(CsvHeader, row, "Title") == CsvImport.Field(row[0])
    ensures CsvImport.Lookup(CsvHeader, row, "Artists") == CsvImport.Field(row[1])
    ensures CsvImport.Lookup(CsvHeader, row, "MediaId") == CsvImport.Field(row[2])
    ensures "PlaylistName" !in CsvHeader && "Artist" !in CsvHeader && "VideoId" !in CsvHeader
    ensures "URL" !in CsvHeader && "url" !in CsvHeader && "MediaId" in CsvHeader
  {
    var h := CsvHeader;
    assert h[..3] == h && h[3..] == [];
    assert CsvImport.LastIndexOf(h, "Title") == 0 by {
      assert h[..2][..1] == ["Title"];
    }
    assert CsvImport.LastIndexOf(h, "Artists") == 1 by {
      assert h[..2] == ["Title", "Artists"];
    }
    assert CsvImport.LastIndexOf(h, "MediaId") == 2;
  }

  /** A kept row of a file without URL columns carries its direct id. */
  lemma ClassifyWithoutUrl(path: string, h: seq<string>, row: seq<string>, name: string,
                           title: string, artists: string, id: Option<string>)
    requires CsvImport.TargetName(path, h, row) == Some(name) && name != ""
    requires CsvImport.GetStripped(h, row, "Title") == Some(title)
    requires CsvImport.ArtistsOf(h, row) == Some(artists)
    requires CsvImport.DirectId(h, row) == Ok(id)
    requires "URL" !in h && "url" !in h
    ensures CsvImport.ClassifyRow(path, h, row)
            == Ok(Some(CsvImport.Entry(name, CsvImport.Song(id, title, artists, !CsvImport.HasId(id) && title != ""))))
  {
  }

  /** An exported row is read back as its track's song, in the playlist
      named after the file. */
  lemma ExportedRowRead(path: string, t: Track)
    requires CsvImport.FileStem(path) != ""
    ensures CsvImport.ClassifyRow(path, CsvHeader, RowOf(t))
            == Ok(Some(CsvImport.Entry(CsvImport.FileStem(path), ImportedSong(t))))
  {
    var h, row := CsvHeader, RowOf(t);
    ExportedCells(row);
    var title, artists, media := Strip(row[0]), Strip(row[1]), Strip(row[2]);
    assert CsvImport.GetStripped(h, row, "Title") == Some(title);
    assert CsvImport.GetStripped(h, row, "Artists") == Some(artists);
    assert CsvImport.ArtistsOf(h, row) == Some(artists) by {
      if artists == "" {
        assert Strip("") == "";
      }
    }
    assert CsvImport.DirectId(h, row) == Ok(Some(media));
    ClassifyWithoutUrl(path, h, row, CsvImport.FileStem(path), title, artists, Some(media));
  }

  lemma {:induction false} CollectKept(outs: seq<Result<Option<CsvImport.Entry>, ()>>, es: seq<CsvImport.Entry>)
    requires |outs| == |es| && forall k :: 0 <= k < |es| ==> outs[k] == Ok(Some(es[k]))
    ensures CsvImport.Collect(outs) == Ok(es)
    decreases |es|
  {
    if es != [] {
      var n := |es| - 1;
      CollectKept(outs[..n], es[..n]);
      assert es == es[..n] + [es[n]];
    }
  }

  /** Entries that all name one playlist are grouped under that name, in
      order. */
  lemma {:induction false} GroupedOne(es: seq<CsvImport.Entry>, name: string, songs: seq<CsvImport.Song>)
    requires es != [] && |songs| == |es|
    requires forall k :: 0 <= k < |es| ==> es[k] == CsvImport.Entry(name, songs[k])
    ensures CsvImport.Grouped(es) == CsvImport.Playlists([name], map[name := songs])
    decreases |es|
  {
    var n := |es| - 1;
    assert es[..n] + [es[n]] == es;
    if n == 0 {
      assert es[..n] == [];
      assert songs == [songs[0]];
    } else {
      GroupedOne(es[..n], name, songs[..n]);
      assert songs[..n] + [songs[n]] == songs;
      assert map[name := songs[..n]][name := songs[..n] + [songs[n]]] == map[name := songs];
    }
  }

  /** The songs of the re-imported playlist, one per exported track. */
  function ImportedSongs(tracks: seq<Track>): (r: seq<CsvImport.Song>)
    ensures |r| == |tracks| && forall k :: 0 <= k < |tracks| ==> r[k] == ImportedSong(tracks[k])
  {
    seq(|tracks|, k requires 0 <= k < |tracks| => ImportedSong(tracks[k]))
  }

  /** The entries the importer collects from an exported file. */
  function ExportedEntries(name: string, tracks: seq<Track>): (r: seq<CsvImport.Entry>)
    ensures |r| == |tracks| && forall k :: 0 <= k < |tracks| ==> r[k] == CsvImport.Entry(name, ImportedSong(tracks[k]))
  {
    seq(|tracks|, k requires 0 <= k < |tracks| => CsvImport.Entry(name, ImportedSong(tracks[k])))
  }

  lemma ExportedRead(path: string, tracks: seq<Track>)
    requires CsvImport.FileStem(path) != ""
    ensures CsvImport.ReadSpec(path, AsTable(CsvLines(tracks)))
            == Ok(CsvImport.Grouped(ExportedEntries(CsvImport.FileStem(path), tracks)))
  {
    var name := CsvImport.FileStem(path);
    var lines := CsvLines(tracks);
    var rows := lines[1..];
    assert AsTable(lines) == CsvImport.CsvTable(Some(CsvHeader), rows);
    var outs := CsvImport.Outcomes(path, CsvHeader, rows);
    var es := ExportedEntries(name, tracks);
    forall k | 0 <= k < |tracks| ensures outs[k] == Ok(Some(es[k])) {
      assert rows[k] == RowOf(tracks[k]);
      ExportedRowRead(path, tracks[k]);
    }
    CollectKept(outs, es);
  }

  lemma ExportedGrouped(name: string, tracks: seq<Track>)
    requires tracks != []
    ensures CsvImport.Grouped(ExportedEntries(name, tracks))
            == CsvImport.Playlists([name], map[name := ImportedSongs(tracks)])
  {
    GroupedOne(ExportedEntries(name, tracks), name, ImportedSongs(tracks));
  }

  /** Exporting a playlist and importing the file again gives back one
      playlist, named after the file, whose songs are the tracks in order
      with their stripped title, artists and media id; an empty export
      gives no playlist. */
  lemma ExportThenImport(path: string, tracks: seq<Track>)
    requires CsvImport.FileStem(path) != ""
    ensures tracks == [] ==> CsvImport.ReadSpec(path, AsTable(CsvLines(tracks))) == Ok(CsvImport.Playlists([], map[]))
    ensures tracks != [] ==>
              CsvImport.ReadSpec(path, AsTable(CsvLines(tracks)))
              == Ok(CsvImport.Playlists([CsvImport.FileStem(path)], map[CsvImport.FileStem(path) := ImportedSongs(tracks)]))
  {
    ExportedRead(path, tracks);
    if tracks == [] {
      assert ExportedEntries(CsvImport.FileStem(path), tracks) == [];
    } else {
      ExportedGrouped(CsvImport.FileStem(path), tracks);
    }
  }

  /** `os.path.join(out_dir, fname)` for a file name without `/`. */
  function PathJoin(dir: string, file: string): string
  {
    if dir == [] then file
    else if dir[|dir| - 1] == '/' then dir + file
    else dir + "/" + file
  }

  /** The CSV file named after a playlist: `os.path.join(out_dir,
      _sanitize_filename(name) + '.csv')`. */
  function FileFor(outDir: string, name: Option<string>): string
  {
    PathJoin(outDir, Sanitize(name) + ".csv")
  }

  lemma {:induction false} BaseNamePlain(b: string)
    requires '/' !in b
    ensures CsvImport.BaseName(b) == b
    decreases |b|
  {
    if b != [] {
      BaseNamePlain(b[..|b| - 1]);
      assert b == b[..|b| - 1] + [b[|b| - 1]];
    }
  }

  /** The base name of a file joined to a directory is the file's name. */
  lemma BaseNameJoined(dir: string, file: string)
    requires '/' !in file
    ensures CsvImport.BaseName(PathJoin(dir, file)) == file
  {
    if dir == [] {
      BaseNamePlain(file);
    } else if dir[|dir| - 1] == '/' {
      var d := dir[..|dir| - 1];
      assert dir + file == d + "/" + file;
      CsvImport.BaseNameAfterSlash(d, file);
    } else {
      CsvImport.BaseNameAfterSlash(dir, file);
    }
  }

  /** A name without forbidden characters holds no `/`, and neither does
      its file name. */
  lemma NoSlash(stem: string)
    requires NoForbidden(stem)
    ensures '/' !in stem + ".csv"
  {
    var file := stem + ".csv";
    forall m | 0 <= m < |file| ensures file[m] != '/' {
      if m < |stem| {
        assert file[m] == stem[m] && !Forbidden(stem[m]);
      }
    }
  }

  /** The file `stem.csv` in any directory feeds the playlist `stem` when
      `stem` has no forbidden character and is not only dots. */
  lemma FileStemOfCsv(dir: string, stem: string)
    requires NoForbidden(stem)
    requires exists m :: 0 <= m < |stem| && stem[m] != '.'
    ensures CsvImport.FileStem(PathJoin(dir, stem + ".csv")) == stem
  {
    NoSlash(stem);
    BaseNameJoined(dir, stem + ".csv");
    assert stem + "." + "csv" == stem + ".csv";
    CsvImport.DropExtensionOf(stem, "csv");
  }

  /** The file written for a title is read back as a playlist named by the
      sanitised title, provided that name is not only dots. */
  lemma ExportedFileStem(dir: string, title: Option<string>)
    requires exists m :: 0 <= m < |Sanitize(title)| && Sanitize(title)[m] != '.'
    ensures CsvImport.FileStem(FileFor(dir, title)) == Sanitize(title)
  {
    SanitizedIsSafe(title);
    FileStemOfCsv(dir, Sanitize(title));
  }

  /** One entry of `get_library_playlists`. */
  datatype LibraryEntry = LibraryEntry(title: Option<string>, playlistId: Option<string>)

  /** `(pl.get('title') or '').strip().casefold()`, with `fold` for the
      case folding. */
  function TitleKey(fold: string -> string, title: Option<string>): string
  {
    fold(Strip(Or(title, "")))
  }

  /** The condition of the exact (`==`) or the partial (`in`) comprehension. */
  predicate Hit(fold: string -> string, target: string, e: LibraryEntry, exact: bool)
  {
    if exact then TitleKey(fold, e.title) == target else Contains(TitleKey(fold, e.title), target)
  }

  /** The condition as the function the comprehension applies. */
  function Condition(fold: string -> string, target: string, exact: bool): LibraryEntry -> bool
  {
    e => Hit(fold, target, e, exact)
  }

  /** The comprehension `[pl for pl in pls if keep(pl)]`. */
  function Matches(pls: seq<LibraryEntry>, keep: LibraryEntry -> bool): (r: seq<LibraryEntry>)
    ensures |r| <= |pls|
  {
    if pls == [] then []
    else if keep(pls[0]) then [pls[0]] + Matches(pls[1..], keep)
    else Matches(pls[1..], keep)
  }

  /** `pls[k]` is the first entry that `keep` accepts. */
  ghost predicate FirstHit(pls: seq<LibraryEntry>, keep: LibraryEntry -> bool, k: int)
  {
    0 <= k < |pls| && keep(pls[k]) && forall j :: 0 <= j < k ==> !keep(pls[j])
  }

  /** The matches are accepted entries of the list; there are none exactly
      when no entry is accepted, and otherwise the first is the first
      accepted entry. */
  lemma {:induction false} MatchesSpec(pls: seq<LibraryEntry>, keep: LibraryEntry -> bool)
    ensures var r := Matches(pls, keep);
      && (forall k :: 0 <= k < |r| ==> r[k] in pls && keep(r[k]))
      && (r == [] <==> forall k :: 0 <= k < |pls| ==> !keep(pls[k]))
      && (r != [] ==> exists k :: FirstHit(pls, keep, k) && r[0] == pls[k])
  {
    if pls != [] {
      var tail := pls[1..];
      MatchesSpec(tail, keep);
      var rest := Matches(tail, keep);
      var r := Matches(pls, keep);
      if keep(pls[0]) {
        assert FirstHit(pls, keep, 0);
        forall k | 0 <= k < |r| ensures r[k] in pls && keep(r[k]) {
          if k > 0 {
            assert r[k] == rest[k - 1];
          }
        }
      } else {
        assert r == rest;
        if rest != [] {
          var k :| FirstHit(tail, keep, k) && rest[0] == tail[k];
          forall j | 0 <= j < k + 1 ensures !keep(pls[j]) {
            if j > 0 {
              assert pls[j] == tail[j - 1];
            }
          }
          assert FirstHit(pls, keep, k + 1);
        } else {
          forall k | 0 <= k < |pls| ensures !keep(pls[k]) {
            if k > 0 {
              assert pls[k] == tail[k - 1];
            }
          }
        }
      }
    }
  }

  /** `(name or '').strip().casefold()`. */
  function Target(fold: string -> string, name: Option<string>): string
  {
    fold(Strip(Or(name, "")))
  }

  /** The playlist `export_by_name` picks: the first exact match of the
      trimmed, folded title, else the first partial match, else none. */
  function Choose(pls: seq<LibraryEntry>, fold: string -> string, target: string): Option<LibraryEntry>
  {
    var exact := Matches(pls, Condition(fold, target, true));
    var matches := if exact != [] then exact else Matches(pls, Condition(fold, target, false));
    if matches == [] then None else Some(matches[0])
  }

  /** Every string contains itself. */
  lemma ContainsSelf(s: string)
    ensures Contains(s, s)
  {
    assert OccursAt(s, s, 0);
  }

  /** An exact match is also a partial one. */
  lemma ExactIsPartial(fold: string -> string, target: string, e: LibraryEntry)
    ensures Condition(fold, target, true)(e) ==> Condition(fold, target, false)(e)
  {
    ContainsSelf(target);
  }

  /** The choice is the first exact match when there is one, and the first
      partial match only when there is none; nothing is chosen exactly when
      no title contains the target. */
  lemma ChooseSpec(pls: seq<LibraryEntry>, fold: string -> string, target: string)
    ensures var exact, partial := Condition(fold, target, true), Condition(fold, target, false);
      && (Choose(pls, fold, target).None? <==> forall k :: 0 <= k < |pls| ==> !partial(pls[k]))
      && ((exists k :: 0 <= k < |pls| && exact(pls[k])) ==>
            exists k :: FirstHit(pls, exact, k) && Choose(pls, fold, target) == Some(pls[k]))
      && ((forall k :: 0 <= k < |pls| ==> !exact(pls[k])) && Choose(pls, fold, target).Some? ==>
            exists k :: FirstHit(pls, partial, k) && Choose(pls, fold, target) == Some(pls[k]))
  {
    var exact, partial := Condition(fold, target, true), Condition(fold, target, false);
    MatchesSpec(pls, exact);
    MatchesSpec(pls, partial);
    forall k | 0 <= k < |pls| ensures exact(pls[k]) ==> partial(pls[k]) {
      ExactIsPartial(fold, target, pls[k]);
    }
  }

  /** What `get_playlist` answers: an exception, or the `tracks` and `title`
      keys of the playlist. */
  datatype FetchReply = FetchRaised(message: string) | Fetched(tracks: Option<seq<Track>>, title: Option<string>)

  /** `str(pid)` inside the f-string of `_get_playlist_tracks`. */
  function IdText(pid: Option<string>): string
  {
    if pid.Some? then pid.value else "None"
  }

  /** `_get_playlist_tracks`: the tracks (none when the key is empty) and the
      title (`playlist_<id>` when it is empty), or `None` on an exception. */
  function PlaylistTracks(reply: FetchReply, pid: Option<string>): (r: Option<(seq<Track>, string)>)
    ensures r.None? <==> reply.FetchRaised?
    ensures r.Some? ==> r.value.1 != ""
    // The tracks, or none when the key is missing.
    ensures reply.Fetched? && reply.tracks.Some? ==> r.value.0 == reply.tracks.value
    ensures reply.Fetched? && reply.tracks.None? ==> r.value.0 == []
    // The title when it is non-empty, else `playlist_<id>`.
    ensures reply.Fetched? && reply.title.Some? && reply.title.value != "" ==> r.value.1 == reply.title.value
    ensures reply.Fetched? && (reply.title.None? || reply.title.value == "") ==> r.value.1 == "playlist_" + IdText(pid)
  {
    match reply
    case FetchRaised(_) => None
    case Fetched(tracks, title) =>
      Some((if tracks.Some? then tracks.value else [], Or(title, "playlist_" + IdText(pid))))
  }

  /** How `export_by_name` ends. */
  datatype ByNameOutcome =
    | ListingFailed
    | NotFound
    | FetchFailed(playlistId: Option<string>)
    | Written(path: string, lines: seq<seq<string>>, ok: bool)

  /** The tail of `export_by_name` for the chosen playlist: fetch it, then
      write its tracks to the file named after its title. */
  function FetchAndWrite(pl: LibraryEntry, fetch: Option<string> -> FetchReply,
                         write: (string, seq<seq<string>>) -> bool, outDir: string): (r: ByNameOutcome)
    ensures r.FetchFailed? || r.Written?
    ensures r.FetchFailed? <==> fetch(pl.playlistId).FetchRaised?
    ensures r.FetchFailed? ==> r.playlistId == pl.playlistId
    ensures r.Written? ==> var got := PlaylistTracks(fetch(pl.playlistId), pl.playlistId).value;
                           && r.path == FileFor(outDir, Some(got.1))
                           && r.lines == CsvLines(got.0)
                           && r.ok == write(r.path, r.lines)
  {
    match PlaylistTracks(fetch(pl.playlistId), pl.playlistId)
    case None => FetchFailed(pl.playlistId)
    case Some((tracks, title)) =>
      var path := FileFor(outDir, Some(title));
      Written(path, CsvLines(tracks), write(path, CsvLines(tracks)))
  }

  /** `export_by_name`: `listing` is what `get_library_playlists` returned
      or raised. */
  function ExportByName(
    listing: Result<seq<LibraryEntry>, string>, name: Option<string>, fold: string -> string,
    fetch: Option<string> -> FetchReply, write: (string, seq<seq<string>>) -> bool, outDir: string): (r: ByNameOutcome)
    ensures r == ListingFailed <==> listing.Err?
    ensures r == NotFound <==> listing.Ok? && Choose(listing.value, fold, Target(fold, name)).None?
    ensures (r.FetchFailed? || r.Written?) ==>
              listing.Ok? && Choose(listing.value, fold, Target(fold, name)).Some?
              && r == FetchAndWrite(Choose(listing.value, fold, Target(fold, name)).value, fetch, write, outDir)
  {
    match listing
    case Err(_) => ListingFailed
    case Ok(pls) =>
      match Choose(pls, fold, Target(fold, name))
      case None => NotFound
      case Some(pl) => FetchAndWrite(pl, fetch, write, outDir)
  }

  /** The value `export_by_name` returns. */
  function ByNameSucceeded(r: ByNameOutcome): bool
  {
    r.Written? && r.ok
  }

  /** `pl.get('title') or pid`: the name `export_all` gives a playlist's file. */
  function ListedTitle(pl: LibraryEntry): Option<string>
  {
    if pl.title.Some? && pl.title.value != "" then pl.title else pl.playlistId
  }

  /** The file `export_all` writes for one playlist, when it writes one. */
  function AllTarget(pl: LibraryEntry, fetch: Option<string> -> FetchReply, outDir: string): Option<(string, seq<seq<string>>)>
  {
    match PlaylistTracks(fetch(pl.playlistId), pl.playlistId)
    case None => None
    case Some((tracks, _)) => Some((FileFor(outDir, ListedTitle(pl)), CsvLines(tracks)))
  }

  /** The files `export_all` writes successfully, in library order. */
  function Exported(pls: seq<LibraryEntry>, fetch: Option<string> -> FetchReply,
                    write: (string, seq<seq<string>>) -> bool, outDir: string): (r: seq<string>)
    ensures |r| <= |pls|
  {
    if pls == [] then []
    else
      var prev := Exported(pls[..|pls| - 1], fetch, write, outDir);
      match AllTarget(pls[|pls| - 1], fetch, outDir)
      case None => prev
      case Some((path, lines)) => if write(path, lines) then prev + [path] else prev
  }

  /** One more listed playlist adds its file when it is fetched and written. */
  lemma ExportedSnoc(pls: seq<LibraryEntry>, i: nat, fetch: Option<string> -> FetchReply,
                     write: (string, seq<seq<string>>) -> bool, outDir: string)
    requires i < |pls|
    ensures var prev := Exported(pls[..i], fetch, write, outDir);
      Exported(pls[..i + 1], fetch, write, outDir)
      == match AllTarget(pls[i], fetch, outDir)
         case None => prev
         case Some((path, lines)) => if write(path, lines) then prev + [path] else prev
  {
    assert pls[..i + 1][..i] == pls[..i];
  }

  /** `export_all`: `False` only when the library cannot be listed; otherwise
      the number of playlists fetched and written, skipping those whose fetch
      raised and those whose file could not be written. */
  method ExportAll(
    listing: Result<seq<LibraryEntry>, string>,
    fetch: Option<string> -> FetchReply, write: (string, seq<seq<string>>) -> bool, outDir: string)
    returns (ok: bool, succeeded: nat, written: seq<string>)
    ensures ok <==> listing.Ok?
    ensures ok ==> written == Exported(listing.value, fetch, write, outDir) && succeeded == |written|
    ensures ok ==> succeeded <= |listing.value|
    ensures !ok ==> succeeded == 0 && written == []
  {
    if listing.Err? {
      return false, 0, [];
    }
    var pls := listing.value;
    succeeded, written := 0, [];
    for i := 0 to |pls|
      invariant written == Exported(pls[..i], fetch, write, outDir) && succeeded == |written|
    {
      ExportedSnoc(pls, i, fetch, write, outDir);
      var pl := pls[i];
      var fetched := PlaylistTracks(fetch(pl.playlistId), pl.playlistId);
      if fetched.None? {
        assert AllTarget(pl, fetch, outDir).None?;
        continue;
      }
      var path := FileFor(outDir, ListedTitle(pl));
      var lines := WriteCsv(fetched.value.0);
      assert AllTarget(pl, fetch, outDir) == Some((path, lines));
      if write(path, lines) {
        succeeded := succeeded + 1;
        written := written + [path];
      }
    }
    assert pls[..|pls|] == pls;
    return true, succeeded, written;
  }

  /** Every file `export_all` writes is named by a listed playlist's title
      (or id), sanitised, in the output directory. */
  lemma {:induction false} ExportedNames(pls: seq<LibraryEntry>, fetch: Option<string> -> FetchReply,
                                         write: (string, seq<seq<string>>) -> bool, outDir: string)
    ensures forall p :: p in Exported(pls, fetch, write, outDir) ==>
              exists k :: 0 <= k < |pls| && p == FileFor(outDir, ListedTitle(pls[k]))
                          && fetch(pls[k].playlistId).Fetched?
    decreases |pls|
  {
    if pls != [] {
      var n := |pls| - 1;
      ExportedNames(pls[..n], fetch, write, outDir);
      forall p | p in Exported(pls, fetch, write, outDir)
        ensures exists k :: 0 <= k < |pls| && p == FileFor(outDir, ListedTitle(pls[k]))
                            && fetch(pls[k].playlistId).Fetched?
      {
        if p in Exported(pls[..n], fetch, write, outDir) {
          var k :| 0 <= k < n && p == FileFor(outDir, ListedTitle(pls[..n][k]))
                   && fetch(pls[..n][k].playlistId).Fetched?;
          assert pls[..n][k] == pls[k];
        }
      }
    }
  }
}
