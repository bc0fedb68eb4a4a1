/** Reading a playlist CSV into an ordered dictionary from playlist name to
    songs (`import_playlist_from_csv` in playlist_importer.py): the target
    playlist of each row, the video-id precedence, the search flag and the
    grouping that keeps row order. */
module CsvImport {
  import opened Text
  import UrlId

  /** What `csv.DictReader` produces for one file: the header row (None for
      an empty file) and the data records, each a list of fields. Lines
      without any field, which the reader skips, are not records. */
  datatype CsvTable = CsvTable(header: Option<seq<string>>, records: seq<seq<string>>)

  /** What a row dictionary holds under one column name: nothing (no such
      column), DictReader's `None` filler (the record is shorter than the
      header) or a field. */
  datatype Cell = Absent | Missing | Field(text: string)

  /** One song of a playlist as the importer hands it on. */
  datatype Song = Song(videoId: Option<string>, title: string, artists: string, searchNeeded: bool)

  /** A row kept for the playlist it names. */
  datatype Entry = Entry(playlist: string, song: Song)

  /** The ordered dictionary `playlists`: its keys in insertion order and its lists. */
  datatype Playlists = Playlists(names: seq<string>, songs: map<string, seq<Song>>)

  /** Why reading stopped: the file has no header row, or the row at this
      index raised while it was read (a `None` field was stripped). */
  datatype CsvError = NoHeader | BadRow(index: nat)

  /** Python truthiness of the video id: neither `None` nor the empty string. */
  predicate HasId(id: Option<string>)
  {
    id.Some? && id.value != ""
  }

  function LastIndexOf(names: seq<string>, name: string): (j: nat)
    requires name in names
    ensures j < |names| && names[j] == name
    ensures forall k :: j < k < |names| ==> names[k] != name
  {
    if names[|names| - 1] == name then |names| - 1 else LastIndexOf(names[..|names| - 1], name)
  }

  /** `dict(zip(header, record))` followed by DictReader's filling of the
      columns the record lacks with `None`; a repeated column name keeps its
      last field. */
  function Lookup(header: seq<string>, record: seq<string>, name: string): (c: Cell)
    ensures c == Absent <==> name !in header
    ensures c == Missing <==> |record| < |header| && name in header[|record|..]
    // A repeated column name gives the field under its last occurrence.
    ensures c.Field? ==> exists j :: 0 <= j < |header| && j < |record| && header[j] == name && record[j] == c.text
                                     && forall k :: j < k < |header| ==> header[k] != name
  {
    var n := if |record| < |header| then |record| else |header|;
    if name !in header then Absent
    else if name in header[n..] then Missing
    else
      assert header == header[..n] + header[n..];
      var j := LastIndexOf(header[..n], name);
      assert forall k :: n <= k < |header| ==> header[k] == header[n..][k - n];
      Field(record[j])
  }

  /** `row.get(name, '')`: `None` stands for DictReader's filler. */
  function Get(header: seq<string>, record: seq<string>, name: string): Option<string>
  {
    match Lookup(header, record, name)
    case Absent => Some("")
    case Missing => None
    case Field(t) => Some(t)
  }

  /** `row.get(name, '').strip()`; `None` when the value is `None`, whose
      `strip` raises. */
  function GetStripped(header: seq<string>, record: seq<string>, name: string): Option<string>
  {
    match Get(header, record, name)
    case None => None
    case Some(v) => Some(Strip(v))
  }

  /** `os.path.basename`: what follows the last `/`. */
  function BaseName(path: string): (b: string)
    ensures '/' !in b
    ensures |b| <= |path| && b == path[|path| - |b|..]
    // The suffix starts at the beginning of the path or right after a `/`.
    ensures |b| == |path| || path[|path| - |b| - 1] == '/'
  {
    if path == [] || path[|path| - 1] == '/' then []
    else BaseName(path[..|path| - 1]) + [path[|path| - 1]]
  }

  /** `os.path.splitext(name)[0]`: drops the last `.` and what follows it,
      unless only dots precede that `.` (so `.csv` has no extension). */
  function DropExtension(name: string): (r: string)
    ensures r == name || (exists k :: 0 < k < |name| && name[k] == '.' && r == name[..k]
                                       && '.' !in name[k + 1..] && exists m :: 0 <= m < k && name[m] != '.')
  {
    if '.' !in name then name
    else
      var k := LastIndexOfChar(name, '.');
      if exists m :: 0 <= m < k && name[m] != '.' then name[..k] else name
  }

  function LastIndexOfChar(s: string, c: char): (j: nat)
    requires c in s
    ensures j < |s| && s[j] == c && c !in s[j + 1..]
  {
    if s[|s| - 1] == c then |s| - 1
    else
      var j := LastIndexOfChar(s[..|s| - 1], c);
      assert s[j + 1..] == s[..|s| - 1][j + 1..] + [s[|s| - 1]];
      j
  }

  /** The playlist name used when the file has no `PlaylistName` column:
      the file's base name without its extension. */
  function FileStem(path: string): (r: string)
    ensures '/' !in r
  {
    DropExtension(BaseName(path))
  }

  /** The row's target playlist: the stripped `PlaylistName` field, or the
      file stem without that column; `None` when the field is `None`. */
  function TargetName(path: string, header: seq<string>, record: seq<string>): Option<string>
  {
    if "PlaylistName" in header then GetStripped(header, record, "PlaylistName")
    else Some(FileStem(path))
  }

  /** `row.get('Artists', '').strip() or row.get('Artist', '').strip()`. */
  function ArtistsOf(header: seq<string>, record: seq<string>): (r: Option<string>)
    ensures GetStripped(header, record, "Artists") != Some("") ==> r == GetStripped(header, record, "Artists")
    ensures GetStripped(header, record, "Artists") == Some("") ==> r == GetStripped(header, record, "Artist")
  {
    match GetStripped(header, record, "Artists")
    case None => None
    case Some(a) => if a != "" then Some(a) else GetStripped(header, record, "Artist")
  }

  /** The id given directly: the stripped `MediaId` field, else (only when
      there is no `MediaId` column) the stripped `VideoId` field, else none.
      `Err` when the field read is `None`. */
  function DirectId(header: seq<string>, record: seq<string>): Result<Option<string>, ()>
  {
    var col := if "MediaId" in header then "MediaId" else "VideoId";
    if col !in header then Ok(None)
    else match GetStripped(header, record, col)
      case None => Err(())
      case Some(v) => Ok(Some(v))
  }

  /** `row.get('URL', '') or row.get('url', '')`, with `None` read as empty. */
  function UrlText(header: seq<string>, record: seq<string>): string
  {
    match Get(header, record, "URL")
    case Some(u) => if u != "" then u else OrEmpty(Get(header, record, "url"))
    case None => OrEmpty(Get(header, record, "url"))
  }

  function OrEmpty(o: Option<string>): string
  {
    if o.Some? then o.value else ""
  }

  /** Classifies one record: `Ok(None)` when it is skipped, the playlist and
      the song when it is kept, `Err` when reading it raises. */
  function ClassifyRow(path: string, header: seq<string>, record: seq<string>): (r: Result<Option<Entry>, ()>)
    // Rows whose target name is empty are skipped, and only those.
    ensures r == Ok(None) <==> TargetName(path, header, record) == Some("")
    ensures TargetName(path, header, record).None? ==> r.Err?
    ensures r.Ok? && r.value.Some? ==> Some(r.value.value.playlist) == TargetName(path, header, record)
    // Reading raises exactly when a field it strips is DictReader's `None` filler.
    ensures r.Err? <==>
              || TargetName(path, header, record).None?
              || (TargetName(path, header, record) != Some("")
                  && (|| GetStripped(header, record, "Title").None?
                      || ArtistsOf(header, record).None?
                      || DirectId(header, record).Err?))
  {
    match TargetName(path, header, record)
    case None => Err(())
    case Some(name) =>
      if name == "" then Ok(None)
      else
        match (GetStripped(header, record, "Title"), ArtistsOf(header, record), DirectId(header, record))
        case (Some(title), Some(artists), Ok(direct)) =>
          var url := UrlText(header, record);
          var id :=
            if !HasId(direct) && ("URL" in header || "url" in header) && url != ""
               && UrlId.ExtractVideoId(url).Some?
            then UrlId.ExtractVideoId(url)
            else direct;
          Ok(Some(Entry(name, Song(id, title, artists, !HasId(id) && title != ""))))
        case _ => Err(())
  }

  /** A record as long as the header has no `None` filler, so it never
      raises: it is skipped exactly when its target name is empty, and kept
      otherwise. */
  lemma ClassifyFullRecord(path: string, header: seq<string>, record: seq<string>)
    requires |record| >= |header|
    ensures ClassifyRow(path, header, record).Ok?
    ensures ClassifyRow(path, header, record).value.Some? <==> TargetName(path, header, record) != Some("")
  {
    FullRecordField(header, record, "PlaylistName");
    FullRecordField(header, record, "Title");
    FullRecordField(header, record, "Artists");
    FullRecordField(header, record, "Artist");
    FullRecordField(header, record, "MediaId");
    FullRecordField(header, record, "VideoId");
    assert ArtistsOf(header, record).Some?;
    assert DirectId(header, record).Ok?;
  }

  lemma FullRecordField(header: seq<string>, record: seq<string>, name: string)
    requires |record| >= |header|
    ensures GetStripped(header, record, name).Some?
  {
    assert Lookup(header, record, name) != Missing;
  }

  /** What a kept row carries: its playlist, its stripped title and artists,
      the video id by precedence and the search flag. */
  lemma ClassifyRowSpec(path: string, header: seq<string>, record: seq<string>)
    requires ClassifyRow(path, header, record).Ok? && ClassifyRow(path, header, record).value.Some?
    ensures var e := ClassifyRow(path, header, record).value.value;
      && Some(e.playlist) == TargetName(path, header, record) && e.playlist != ""
      && ("PlaylistName" !in header ==> e.playlist == FileStem(path))
      && Some(e.song.title) == GetStripped(header, record, "Title")
      && Some(e.song.artists) == ArtistsOf(header, record)
      // A non-empty direct id wins; a `VideoId` column is read only without a `MediaId` one.
      && ("MediaId" in header && GetStripped(header, record, "MediaId").Some?
          && GetStripped(header, record, "MediaId").value != ""
          ==> e.song.videoId == GetStripped(header, record, "MediaId"))
      && ("MediaId" !in header && "VideoId" in header && GetStripped(header, record, "VideoId").Some?
          && GetStripped(header, record, "VideoId").value != ""
          ==> e.song.videoId == GetStripped(header, record, "VideoId"))
      && ("MediaId" !in header && "VideoId" !in header && !("URL" in header || "url" in header)
          ==> e.song.videoId == None)
      // The URL is consulted only when the direct id is empty.
      && (DirectId(header, record).Ok? && !HasId(DirectId(header, record).value) ==>
            if ("URL" in header || "url" in header) && UrlText(header, record) != ""
               && UrlId.ExtractVideoId(UrlText(header, record)).Some?
            then e.song.videoId == UrlId.ExtractVideoId(UrlText(header, record))
            else e.song.videoId == DirectId(header, record).value)
      // A search is needed exactly when there is no id and the title is not empty.
      && (e.song.searchNeeded <==> !HasId(e.song.videoId) && e.song.title != "")
  {
  }

  /** The classification of every record, in file order. */
  function Outcomes(path: string, header: seq<string>, records: seq<seq<string>>): (r: seq<Result<Option<Entry>, ()>>)
    ensures |r| == |records|
    ensures forall k :: 0 <= k < |records| ==> r[k] == ClassifyRow(path, header, records[k])
  {
    seq(|records|, k requires 0 <= k < |records| => ClassifyRow(path, header, records[k]))
  }

  /** The entries of the kept rows in order, or the first row that raised. */
  function Collect(outs: seq<Result<Option<Entry>, ()>>): Result<seq<Entry>, CsvError>
  {
    if outs == [] then Ok([])
    else match Collect(outs[..|outs| - 1])
      case Err(e) => Err(e)
      case Ok(es) =>
        match outs[|outs| - 1]
        case Err(_) => Err(BadRow(|outs| - 1))
        case Ok(None) => Ok(es)
        case Ok(Some(e)) => Ok(es + [e])
  }

  /** Once a row raises, reading the rest of the file does not change the result. */
  lemma {:induction false} CollectStopsAtError(outs: seq<Result<Option<Entry>, ()>>, n: nat)
    requires n <= |outs| && Collect(outs[..n]).Err?
    ensures Collect(outs) == Collect(outs[..n])
    decreases |outs| - n
  {
    if n < |outs| {
      assert outs[..n + 1][..n] == outs[..n];
      CollectStopsAtError(outs, n + 1);
    } else {
      assert outs[..n] == outs;
    }
  }

  /** `playlists[name].append(song)`, creating the list at the end of the
      key order when `name` is new. */
  function AddEntry(p: Playlists, e: Entry): Playlists
  {
    if e.playlist in p.songs then Playlists(p.names, p.songs[e.playlist := p.songs[e.playlist] + [e.song]])
    else Playlists(p.names + [e.playlist], p.songs[e.playlist := [e.song]])
  }

  /** The dictionary built from `es` by appending each entry in turn. */
  function Grouped(es: seq<Entry>): Playlists
  {
    if es == [] then Playlists([], map[]) else AddEntry(Grouped(es[..|es| - 1]), es[|es| - 1])
  }

  /** What `import_playlist_from_csv` returns for a file; `Err` where it returns `None`. */
  function ReadSpec(path: string, table: CsvTable): Result<Playlists, CsvError>
  {
    if table.header.None? then Err(NoHeader)
    else match Collect(Outcomes(path, table.header.value, table.records))
      case Err(e) => Err(e)
      case Ok(es) => Ok(Grouped(es))
  }

  /** The row loop of `import_playlist_from_csv`. */
  method ReadPlaylists(path: string, table: CsvTable) returns (r: Result<Playlists, CsvError>)
    ensures r == ReadSpec(path, table)
  {
    if table.header.None? {
      return Err(NoHeader);
    }
    var header := table.header.value;
    var names: seq<string> := [];
    var songs: map<string, seq<Song>> := map[];
    ghost var outs := Outcomes(path, header, table.records);
    var i := 0;
    while i < |table.records|
      invariant 0 <= i <= |table.records|
      invariant Collect(outs[..i]).Ok?
      invariant Playlists(names, songs) == Grouped(Collect(outs[..i]).value)
    {
      ghost var es := Collect(outs[..i]).value;
      assert outs[..i + 1][..i] == outs[..i];
      var outcome := ClassifyRow(path, header, table.records[i]);
      assert outcome == outs[..i + 1][i];
      match outcome {
        case Err(_) =>
          CollectStopsAtError(outs, i + 1);
          return Err(BadRow(i));
        case Ok(None) =>
        case Ok(Some(e)) =>
          assert Collect(outs[..i + 1]) == Ok(es + [e]);
          assert (es + [e])[..|es|] == es;
          if e.playlist in songs {
            songs := songs[e.playlist := songs[e.playlist] + [e.song]];
          } else {
            names := names + [e.playlist];
            songs := songs[e.playlist := [e.song]];
          }
      }
      i := i + 1;
    }
    assert outs[..|table.records|] == outs;
    return Ok(Playlists(names, songs));
  }

  // ----- What the grouping guarantees -----

  /** Keys appear once each, in the key order and in the dictionary alike. */
  ghost predicate WellFormed(p: Playlists)
  {
    (forall i, j :: 0 <= i < j < |p.names| ==> p.names[i] != p.names[j])
    && (forall n :: n in p.songs <==> n in p.names)
  }

  /** The songs of the entries aimed at playlist `name`, in entry order. */
  function SongsFor(es: seq<Entry>, name: string): (r: seq<Song>)
    ensures |r| <= |es|
  {
    if es == [] then []
    else SongsFor(es[..|es| - 1], name) + (if es[|es| - 1].playlist == name then [es[|es| - 1].song] else [])
  }

  /** The number of songs over all playlists, taken in key order. */
  function TotalSongs(names: seq<string>, songs: map<string, seq<Song>>): nat
  {
    if names == [] then 0
    else (if names[0] in songs then |songs[names[0]]| else 0) + TotalSongs(names[1..], songs)
  }

  /** The dictionary is well formed, its keys are the playlists named by the
      entries, and each playlist holds exactly its entries' songs in row
      order. */
  lemma {:induction false} GroupedSpec(es: seq<Entry>)
    ensures WellFormed(Grouped(es))
    ensures forall n :: n in Grouped(es).songs <==> exists k :: 0 <= k < |es| && es[k].playlist == n
    ensures forall n :: n in Grouped(es).songs ==> Grouped(es).songs[n] == SongsFor(es, n)
  {
    if es != [] {
      var init := es[..|es| - 1];
      var e := es[|es| - 1];
      GroupedSpec(init);
      forall n ensures n in Grouped(es).songs <==> exists k :: 0 <= k < |es| && es[k].playlist == n {
        if exists k :: 0 <= k < |init| && init[k].playlist == n {
          var k :| 0 <= k < |init| && init[k].playlist == n;
          assert es[k].playlist == n;
        }
        if exists k :: 0 <= k < |es| && es[k].playlist == n {
          var k :| 0 <= k < |es| && es[k].playlist == n;
          if k < |init| { assert init[k].playlist == n; }
        }
      }
      forall n | n in Grouped(es).songs ensures Grouped(es).songs[n] == SongsFor(es, n) {
        if n == e.playlist && n !in Grouped(init).songs {
          SongsForAbsent(init, n);
        }
      }
    }
  }

  lemma {:induction false} SongsForAbsent(es: seq<Entry>, name: string)
    requires forall k :: 0 <= k < |es| ==> es[k].playlist != name
    ensures SongsFor(es, name) == []
  {
    if es != [] {
      SongsForAbsent(es[..|es| - 1], name);
    }
  }

  lemma {:induction false} TotalSongsUnchanged(names: seq<string>, songs: map<string, seq<Song>>, n: string, s: seq<Song>)
    requires n !in names
    ensures TotalSongs(names, songs[n := s]) == TotalSongs(names, songs)
  {
    if names != [] {
      TotalSongsUnchanged(names[1..], songs, n, s);
    }
  }

  lemma {:induction false} TotalSongsGrow(names: seq<string>, songs: map<string, seq<Song>>, n: string, s: Song)
    requires n in names && n in songs
    requires forall i, j :: 0 <= i < j < |names| ==> names[i] != names[j]
    ensures TotalSongs(names, songs[n := songs[n] + [s]]) == TotalSongs(names, songs) + 1
  {
    if names[0] == n {
      assert n !in names[1..];
      TotalSongsUnchanged(names[1..], songs, n, songs[n] + [s]);
    } else {
      TotalSongsGrow(names[1..], songs, n, s);
    }
  }

  lemma {:induction false} TotalSongsAppend(names: seq<string>, songs: map<string, seq<Song>>, n: string, s: seq<Song>)
    requires n !in names
    ensures TotalSongs(names + [n], songs[n := s]) == TotalSongs(names, songs) + |s|
  {
    if names == [] {
      assert ([n] + [])[1..] == [];
    } else {
      assert (names + [n])[1..] == names[1..] + [n];
      TotalSongsAppend(names[1..], songs, n, s);
    }
  }

  /** Every entry lands in exactly one playlist: the song counts over all
      playlists add up to the number of entries. */
  lemma {:induction false} GroupedTotal(es: seq<Entry>)
    ensures TotalSongs(Grouped(es).names, Grouped(es).songs) == |es|
  {
    if es != [] {
      var init := es[..|es| - 1];
      var e := es[|es| - 1];
      GroupedTotal(init);
      GroupedSpec(init);
      var p := Grouped(init);
      if e.playlist in p.songs {
        TotalSongsGrow(p.names, p.songs, e.playlist, e.song);
      } else {
        TotalSongsAppend(p.names, p.songs, e.playlist, [e.song]);
      }
    }
  }

  /** The number of rows that are kept (neither skipped nor raising). */
  function KeptRows(outs: seq<Result<Option<Entry>, ()>>): nat
  {
    if outs == [] then 0
    else KeptRows(outs[..|outs| - 1]) + (if outs[|outs| - 1].Ok? && outs[|outs| - 1].value.Some? then 1 else 0)
  }

  /** When no row raises, there is one entry per kept row, and each entry is
      the one its row was classified to. */
  lemma {:induction false} CollectSpec(outs: seq<Result<Option<Entry>, ()>>)
    ensures Collect(outs).Ok? <==> forall k :: 0 <= k < |outs| ==> outs[k].Ok?
    ensures Collect(outs).Ok? ==> |Collect(outs).value| == KeptRows(outs)
    ensures Collect(outs).Ok? ==> forall k :: 0 <= k < |Collect(outs).value| ==>
              exists j :: 0 <= j < |outs| && outs[j] == Ok(Some(Collect(outs).value[k]))
  {
    if outs != [] {
      var init := outs[..|outs| - 1];
      CollectSpec(init);
      assert forall k :: 0 <= k < |init| ==> init[k] == outs[k];
    }
  }

  /** The entries are those of the kept rows in row order: `idx` lists the
      kept rows, increasing, and the `j`-th entry is the one of row `idx[j]`. */
  lemma {:induction false} CollectInRowOrder(outs: seq<Result<Option<Entry>, ()>>) returns (idx: seq<nat>)
    requires Collect(outs).Ok?
    ensures |idx| == |Collect(outs).value|
    ensures forall j :: 0 <= j < |idx| ==> idx[j] < |outs| && outs[idx[j]] == Ok(Some(Collect(outs).value[j]))
    ensures forall i, j :: 0 <= i < j < |idx| ==> idx[i] < idx[j]
    ensures forall k :: 0 <= k < |outs| && outs[k].Ok? && outs[k].value.Some? ==> k in idx
  {
    if outs == [] {
      return [];
    }
    var n := |outs| - 1;
    var init := outs[..n];
    var prev := CollectInRowOrder(init);
    assert forall k :: 0 <= k < n ==> init[k] == outs[k];
    if outs[n].Ok? && outs[n].value.Some? {
      idx := prev + [n];
    } else {
      idx := prev;
    }
  }

  /** The dictionary `import_playlist_from_csv` returns: well formed, as many
      songs in all as kept rows, each playlist's songs in row order, every
      playlist named by some kept row, and without a `PlaylistName` column a
      single playlist named after the file. */
  lemma ReadPlaylistsSpec(path: string, table: CsvTable)
    requires ReadSpec(path, table).Ok?
    ensures var p := ReadSpec(path, table).value;
            var outs := Outcomes(path, table.header.value, table.records);
            var es := Collect(outs).value;
            && WellFormed(p)
            && TotalSongs(p.names, p.songs) == KeptRows(outs)
            && (forall n :: n in p.songs ==> p.songs[n] == SongsFor(es, n))
            && (forall n :: n in p.songs ==>
                  n != "" && exists k :: 0 <= k < |table.records| && TargetName(path, table.header.value, table.records[k]) == Some(n))
            && ("PlaylistName" !in table.header.value ==> forall n :: n in p.songs ==> n == FileStem(path))
  {
    var header := table.header.value;
    var outs := Outcomes(path, header, table.records);
    var es := Collect(outs).value;
    GroupedSpec(es);
    GroupedTotal(es);
    CollectSpec(outs);
    EntryNames(path, header, table.records);
  }

  /** Every entry names a non-empty playlist that some row targets. */
  lemma EntryNames(path: string, header: seq<string>, records: seq<seq<string>>)
    requires Collect(Outcomes(path, header, records)).Ok?
    ensures var es := Collect(Outcomes(path, header, records)).value;
            forall k :: 0 <= k < |es| ==>
              es[k].playlist != "" && exists j :: 0 <= j < |records| && TargetName(path, header, records[j]) == Some(es[k].playlist)
  {
    var outs := Outcomes(path, header, records);
    var es := Collect(outs).value;
    CollectSpec(outs);
    forall k | 0 <= k < |es|
      ensures es[k].playlist != "" && exists j :: 0 <= j < |records| && TargetName(path, header, records[j]) == Some(es[k].playlist)
    {
      var j :| 0 <= j < |outs| && outs[j] == Ok(Some(es[k]));
      assert ClassifyRow(path, header, records[j]) == Ok(Some(es[k]));
    }
  }

  /** A path whose last `/` is followed by `b` has base name `b`. */
  lemma {:induction false} BaseNameOfTail(p: string, b: string)
    requires '/' !in b && |b| < |p| && p[|p| - |b| - 1] == '/' && p[|p| - |b|..] == b
    ensures BaseName(p) == b
    decreases |b|
  {
    if b != [] {
      var q := p[..|p| - 1];
      var c := b[..|b| - 1];
      assert q[|q| - |c| - 1] == p[|p| - |b| - 1];
      assert q[|q| - |c|..] == c;
      BaseNameOfTail(q, c);
      assert p[|p| - 1] == b[|b| - 1];
      assert b == c + [b[|b| - 1]];
    }
  }

  lemma BaseNameAfterSlash(dir: string, b: string)
    requires '/' !in b
    ensures BaseName(dir + "/" + b) == b
  {
    var p := dir + "/" + b;
    assert p[|p| - |b| - 1] == '/';
    assert p[|p| - |b|..] == b;
    BaseNameOfTail(p, b);
  }

  /** A file `dir/stem.ext` feeds the playlist `stem` when the extension has
      no dot and the stem is not only dots (`a.b.csv` feeds `a.b`). */
  lemma FileStemOf(dir: string, stem: string, ext: string)
    requires '/' !in stem && '/' !in ext && '.' !in ext
    requires exists m :: 0 <= m < |stem| && stem[m] != '.'
    ensures FileStem(dir + "/" + stem + "." + ext) == stem
  {
    var name := stem + "." + ext;
    assert dir + "/" + stem + "." + ext == dir + "/" + name;
    BaseNameAfterSlash(dir, name);
    DropExtensionOf(stem, ext);
  }

  lemma DropExtensionOf(stem: string, ext: string)
    requires '.' !in ext
    requires exists m :: 0 <= m < |stem| && stem[m] != '.'
    ensures DropExtension(stem + "." + ext) == stem
  {
    var name := stem + "." + ext;
    assert name[|stem|] == '.';
    var k := LastIndexOfChar(name, '.');
    assert k == |stem|;
    var m :| 0 <= m < |stem| && stem[m] != '.';
    assert name[m] != '.';
    assert name[..k] == stem;
  }
}
