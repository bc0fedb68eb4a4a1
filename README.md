# yt-playlist-importer in Dafny

A model of the two scripts of yt-playlist-importer.

- **The importer** (`playlist_importer.py`):
  - reads playlist CSV files (Kreate exports, title/artist lists, URL lists);
  - groups their rows into playlists;
  - creates each playlist on YouTube Music and adds its songs one by one, searching for the songs that carry no video id;
  - counts successes, failures and searches, and reports the first failures.
- **The exporter** (`playlist_exporter.py`):
  - finds a library playlist by name, or takes every playlist;
  - writes each one as a `Title, Artists, MediaId` CSV, under a sanitised file name.

Both scripts have an interactive authentication setup that builds the request headers saved as `browser.json`:

- the importer takes a pasted "Copy as cURL" command;
- the exporter takes pasted raw request headers.

The exporter also checks and normalises that file before use.

The YouTube Music client is not modelled. Every remote call (`create_playlist`, `search`, `add_playlist_items`, `get_library_playlists`, `get_playlist`) is an oracle parameter that returns a reply value or an error. File contents come in as values too:

- the parsed CSV table;
- the parsed `browser.json`;
- the pasted lines.

A CSV file that is written becomes its list of rows, plus a `write` oracle that says whether writing succeeded.

Modules, one per concern:

| module | file | what it holds |
|---|---|---|
| `Text` | text.dfy | Python's `str.isspace`, `strip`, `in` on strings, ASCII `lower`, `join`, and a leftmost-match scanner used for `re.search` |
| `UrlId` | url_id.dfy | the video-id regular expression of the importer |
| `CsvImport` | csv_import.dfy | `import_playlist_from_csv`: row classification, id precedence, grouping |
| `ImportRun` | import_run.dfy | `search_youtube_music` and `import_playlist` with its counters and report |
| `CurlAuth` | curl_auth.dfy | the importer's `setup_authentication` |
| `RawHeaders` | raw_headers.dfy | the exporter's `setup_authentication` |
| `FileNames` | file_names.dfy | `_sanitize_filename` |
| `BrowserJson` | browser_json.dfy | `_ensure_browser_json` |
| `Exporter` | exporter.dfy | `_get_playlist_tracks`, `_write_csv`, `export_by_name`, `export_all` |

Loops in the source are loops in the model, each a `method` proved against a function that specifies it:

- `ReadPlaylists` against `ReadSpec`;
- `AddSongs` against `Tally`;
- `EnsureBrowserJson` against `EnsureSpec`;
- `ParseHeaderLines` against `Parse`;
- `WriteCsv` against `CsvLines`;
- `ExportAll` against `Exported`;
- `ReadPasted`.

The properties are proved as lemmas about those functions.

## Model

| member | source | states |
|---|---|---|
| UrlId.IdAt | playlist_importer.py:182 | the group `[a-zA-Z0-9_-]{11}` matches at a position exactly when eleven id characters follow there, and yields them |
| UrlId.MatchAtSound | playlist_importer.py:182 | a match of the pattern at a position is exactly an 11-character id right after a `v=` or a `youtu.be/` that starts there |
| UrlId.ExtractVideoIdSpec | playlist_importer.py:182-184 | an extracted id is an 11-character id following `v=` or `youtu.be/` at the leftmost position where one does; no id is extracted only when no position has one |
| UrlId.ExtractFromWatchUrl | playlist_importer.py:182-184 | a watch URL `watch?v=<id>&t=1` yields its id |
| UrlId.ExtractFromShortUrl | playlist_importer.py:182-184 | a short URL `https://youtu.be/<id>` yields its id |
| CsvImport.Lookup | playlist_importer.py:156-159 | the row dictionary has no entry for a name outside the header; it holds `None` for a column past the end of a short record; otherwise it holds the record's field under the last column of that name |
| CsvImport.BaseName | playlist_importer.py:154 | `os.path.basename` is the slash-free suffix of the path that starts at its beginning or right after a `/` |
| CsvImport.DropExtension | playlist_importer.py:154 | `splitext(...)[0]` removes the last dot and what follows it, unless only dots precede that dot |
| CsvImport.FileStemOf | playlist_importer.py:150-154 | a file `dir/stem.ext` gives the playlist name `stem` when the extension has no dot and the stem is not only dots |
| CsvImport.ArtistsOf | playlist_importer.py:169 | the stripped `Artists` field, or the stripped `Artist` field when the first is empty |
| CsvImport.ClassifyRow | playlist_importer.py:156-187 | a row is skipped exactly when its target name is empty. Reading raises exactly when the target field, or for a row that is not skipped the `Title`, `Artists`/`Artist` or id field it strips, is `None`. A kept row names the target playlist |
| CsvImport.ClassifyFullRecord | playlist_importer.py:156-187 | a record at least as long as the header never raises: it is skipped exactly when its target name is empty and kept otherwise |
| CsvImport.ClassifyRowSpec | playlist_importer.py:158-187 | a kept row carries its non-empty playlist, or the file stem when there is no `PlaylistName` column. A non-empty stripped `MediaId` wins. `VideoId` is read only without a `MediaId` column. The URL is consulted only when that id is empty, and then only when it matches. `search_needed` holds exactly when there is no id and the title is not empty |
| CsvImport.CollectStopsAtError | playlist_importer.py:139-206 | once a row raises, the rest of the file does not change the result (`None`) |
| CsvImport.ReadPlaylists | playlist_importer.py:139-206 | the row loop that fills `playlists` returns what `ReadSpec` defines: `None` without a header row, or at the first row that raises; otherwise the grouped entries |
| CsvImport.GroupedSpec | playlist_importer.py:189-197 | the dictionary has each key once, both in its key order and among its entries. Its keys are exactly the playlists some entry names. Each playlist holds its entries' songs in row order |
| CsvImport.GroupedTotal | playlist_importer.py:189-199 | the song counts over all playlists add up to the number of entries |
| CsvImport.CollectSpec | playlist_importer.py:156-197 | reading succeeds exactly when no row raises; then there is one entry per kept row, each the classification of some row |
| CsvImport.CollectInRowOrder | playlist_importer.py:156-197 | the entries are the kept rows' entries in row order: an increasing list of row numbers holds every kept row, and entry `j` is the one of row number `j` in that list |
| CsvImport.ReadPlaylistsSpec | playlist_importer.py:150-199 | the returned dictionary is well formed. Its total song count equals the number of kept rows. Each playlist's songs are in row order. Every playlist is non-empty and named by some row. Without a `PlaylistName` column the only playlist is the file stem |
| CsvImport.EntryNames | playlist_importer.py:158-164 | every collected entry names a non-empty playlist that some row targets |
| ImportRun.PickFirst | playlist_importer.py:72-84 | `search_youtube_music` returns the first result's `videoId`, and `None` on no results or on an exception |
| ImportRun.ProcessSong | playlist_importer.py:230-276 | a song is searched for exactly when it has no id and its flag is set. A song with an id is added under that id, without a search. A search that finds an id adds the song under that id. No id and no flag gives "No video ID available" without any call. A search that yields no id gives "Song not found in search" without an add call. Only non-empty ids are added. A song succeeds exactly when its add call returned, or raised with `STATUS_SUCCEEDED` |
| ImportRun.Tally | playlist_importer.py:224-279 | after `n` songs, `successful + failed == n`, `len(failed_songs) == failed` and `searched <= n` |
| ImportRun.TrySong | playlist_importer.py:230-261 | the `try` block raises with the song's error message, or with a message carrying `STATUS_SUCCEEDED`; it searched exactly when the song is searched |
| ImportRun.AddSongs | playlist_importer.py:229-279 | the loop, with its `except` accounting, ends with the counters and the failure list that `Tally` gives for all songs |
| ImportRun.ImportPlaylist | playlist_importer.py:208-300 | `import_playlist` returns true exactly when `create_playlist` (description "Imported playlist - N songs") returned, whatever happened to the songs. Then every song is either successful or failed and each failure is listed |
| ImportRun.SearchedCount | playlist_importer.py:234-237 | `searched` counts exactly the songs without an id whose flag is set |
| ImportRun.TallySucceeded | playlist_importer.py:246-270 | `successful` counts the songs whose add call returned or raised with `STATUS_SUCCEEDED` |
| ImportRun.TallyFailures | playlist_importer.py:263-276 | `failed_songs` lists exactly the failed songs, in order: there is an increasing list of song numbers that holds every song whose outcome is an error, and entry `j` is that song's title, artists and error |
| ImportRun.FailuresLackMarker | playlist_importer.py:268-276 | no listed failure carries `STATUS_SUCCEEDED` in its error |
| ImportRun.OwnMessagesLackMarker | playlist_importer.py:240-243 | neither of the importer's own messages passes for a success |
| ImportRun.FailureReport | playlist_importer.py:285-292 | nothing is printed when no song failed. Otherwise the first ten failures are printed in order, then "... and N more" with N = `len(failed_songs) - 10` when there are more than ten |
| ImportRun.RoadTripScenario | playlist_importer.py:229-279 | three songs: one with an id, one found by search, one with neither. They give two successes, one failure ("No video ID available") and one search |
| ImportRun.SpotifySongNeverSearched | playlist_importer.py:106-113 | a Spotify track as recorded (no `search_needed`) is never searched and always fails with "No video ID available" |
| ImportRun.SpotifySong | playlist_importer.py:109-113 | the corrected record has no id, keeps title and artists, and is flagged for search exactly when it has a title |
| ImportRun.SpotifySongSearched | playlist_importer.py:109-113 | a titled Spotify track is searched for; it is added under the found id, or fails with "Song not found in search" |
| CurlAuth.ReadPasted | playlist_importer.py:28-33 | the loop returns `PastedLines`: the lines up to the first empty line that is not the first line; `None` (the `EOFError`) exactly when the input ends before such a line |
| CurlAuth.QuoteFrom | playlist_importer.py:41 | the greedy `[^']+` ends at the first quote after its start |
| CurlAuth.GroupValueAt | playlist_importer.py:41-53 | the pattern's group matches at a position exactly when `-H '<name>: ` is followed there by a non-empty quote-free value and a quote; `split(': ', 1)[1]` of the group is that value |
| CurlAuth.ExtractedIsLeftmost | playlist_importer.py:41-53 | an extracted header value is the quoted value after the leftmost `-H '<name>: ` that carries one |
| CurlAuth.NothingExtracted | playlist_importer.py:41-53 | nothing is extracted only when no `-H '<name>: ` in the command carries a quoted value |
| CurlAuth.CurlHeaders | playlist_importer.py:38-53 | the dictionary holds `User-Agent`, `Cookie` and `X-Goog-AuthUser` exactly when their patterns match, with the extracted values, and nothing else. `X-Goog-AuthUser` uses the corrected pattern from "## Findings" |
| CurlAuth.SetupAuthentication | playlist_importer.py:28-58 | the setup fails on end of input exactly when no empty line after the first one is read. Otherwise it takes the lines the input loop reads, joined by spaces. It succeeds exactly when the extracted `Cookie` holds `SAPISID`, and then saves the extracted headers. Every other outcome is the missing-`SAPISID` error |
| CurlAuth.AuthUserMissedAsWritten | playlist_importer.py:51-53 | the pattern as written does not find `x-goog-authuser: 0` |
| CurlAuth.AuthUserFound | playlist_importer.py:51-53 | the corrected pattern `[Xx]-[Gg]oog-[Aa]uth[Uu]ser` extracts `0` from the same argument |
| RawHeaders.SplitLines | playlist_exporter.py:181 | `splitlines()` gives no lines for an empty text and one line for a text without breaks; no line holds a break |
| RawHeaders.SplitLinesBreak | playlist_exporter.py:181 | a break-free line ended by one break character (other than the `\r` of `\r\n`) is the first line, followed by the lines of the rest |
| RawHeaders.SplitLinesCrLf | playlist_exporter.py:181 | a break-free line ended by `\r\n` is the first line, followed by the lines of the rest |
| RawHeaders.IndexOf | playlist_exporter.py:187 | the first `:` at or after a position, as `split(':', 1)` uses it |
| RawHeaders.CanonicalKey | playlist_exporter.py:189-202 | a name that lowers to `user-agent`, `cookie`, `x-goog-authuser`, `authorization` or `x-goog-visitor-id` is stored under `User-Agent`, `Cookie`, `X-Goog-AuthUser`, `Authorization` or `X-Goog-Visitor-Id`; every other name is stored as written |
| RawHeaders.CanonicalKeyIgnoresCase | playlist_exporter.py:190-200 | two spellings of `user-agent`, `cookie`, `x-goog-authuser`, `authorization` or `x-goog-visitor-id` that differ only in case get the same canonical key |
| RawHeaders.ParseHeaderLines | playlist_exporter.py:178-206 | the loop with `current_header` builds the dictionary that `Parse` defines line by line |
| RawHeaders.BlankLineIgnored | playlist_exporter.py:182-184 | a blank line changes nothing |
| RawHeaders.HeaderLineStored | playlist_exporter.py:186-203 | a line `a:b` with no colon in `a` stores the stripped `b` under the canonical key of the stripped `a`, replacing an earlier value, and makes the lowered name the current header |
| RawHeaders.ContinuationLine | playlist_exporter.py:204-206 | a line without a colon is appended to `Cookie` after one space when the current header is `cookie`, and is ignored otherwise |
| RawHeaders.CheckHeaders | playlist_exporter.py:208-215 | the setup fails exactly when there is no `Cookie` or it lacks `SAPISID`. Otherwise it keeps every entry, keeps a non-empty `User-Agent`, and sets the default User-Agent when it is missing or empty |
| RawHeaders.SetupAuthentication | playlist_exporter.py:174-215 | an all-whitespace paste is refused. A paste whose parsed `Cookie` lacks `SAPISID` is refused. Otherwise the parsed headers are saved with a non-empty `User-Agent` |
| FileNames.RemoveForbidden | playlist_exporter.py:27 | the result has none of `<>:"/\|?*` and no character below 0x20; its characters come from the input; a clean text is kept |
| FileNames.RemoveForbiddenInPlace | playlist_exporter.py:27 | each character is kept in place exactly when it is allowed, so the result is the input's allowed characters in order, each as often as it occurs |
| FileNames.CollapseSplits | playlist_exporter.py:28 | no whitespace run of `re.sub(r'\s+', ' ', ...)` crosses the end of a text that ends in another character, so both sides are collapsed on their own |
| FileNames.CollapseRun | playlist_exporter.py:28 | a whitespace run between two other characters (or an end of the text) becomes exactly one plain space |
| FileNames.CollapseKeepsNonSpace | playlist_exporter.py:28 | collapsing whitespace keeps every other character, in order |
| FileNames.CollapsedSpacesSingle | playlist_exporter.py:28 | after `re.sub(r'\s+', ' ', ...)` no two neighbouring characters are whitespace and every whitespace is a plain space |
| FileNames.Cut | playlist_exporter.py:29 | `name[:240]`: the prefix of length `min(len(name), 240)` |
| FileNames.Sanitize | playlist_exporter.py:23-29 | the file name is never empty and has at most 240 characters; a missing or empty name gives `playlist` |
| FileNames.SanitizedIsSafe | playlist_exporter.py:26-29 | the file name has no forbidden or control character, no two neighbouring whitespace characters and only plain spaces |
| FileNames.SanitizedFromName | playlist_exporter.py:26-29 | the file name is `playlist`, or made only of characters of the name and spaces |
| FileNames.CleanNameKept | playlist_exporter.py:23-29 | a name that is already clean, short, and not padded with whitespace is kept unchanged |
| FileNames.SpaceAfterControl | playlist_exporter.py:26-29 | a control character before a space leaves a leading space, because the strip happens before the deletion |
| FileNames.InnerRunCollapsed | playlist_exporter.py:26-29 | the file name of `"a \u00a0b"` is `"a b"`: the space and no-break space between the words become one plain space |
| FileNames.LeadingSpaceStripped | playlist_exporter.py:26-29 | the file name of `" a"` is `"a"`, so sanitising `"\x01 a"` twice gives another name than once |
| BrowserJson.EnsureBrowserJson | playlist_exporter.py:31-67 | the check, the origin step and the conversion loop over the keys give what `EnsureSpec` defines, including whether the file is rewritten |
| BrowserJson.EnsureAccepts | playlist_exporter.py:32-45 | the file is accepted exactly when it exists, parses, and its cookie (`Cookie`, else `cookie`) is a string holding `SAPISID`; each failure has its own error |
| BrowserJson.EnsureResult | playlist_exporter.py:47-61 | the same keys, plus both origins when neither was truthy. Every value becomes a string: strings are kept, `null` becomes empty, others become their text. The file is rewritten exactly when an origin was added or a value was not a string |
| BrowserJson.EnsureIdempotent | playlist_exporter.py:42-61 | checking the result a second time changes nothing and does not rewrite the file (when `Cookie` was not a non-string value) |
| BrowserJson.NumericCookieRefused | playlist_exporter.py:42-59 | a falsy number under `Cookie` beside a `cookie` with `SAPISID` is accepted once; its text `0` then makes the rewritten file refused |
| BrowserJson.Stored | playlist_exporter.py:217-220 | headers saved by the setup read back with the same keys, all strings |
| BrowserJson.SetupOutputAccepted | playlist_exporter.py:42-61 | headers saved by the setup pass the check, and are rewritten exactly when they carry no non-empty origin |
| Exporter.NamedArtists | playlist_exporter.py:87 | the artist names kept are the present, non-empty ones, no more than the list has |
| Exporter.NamedArtistsInPlace | playlist_exporter.py:87 | each entry contributes its name in place exactly when the name is present and not empty, so the names keep list order and multiplicity |
| Exporter.RowOfSpec | playlist_exporter.py:84-89 | a row has three cells. The title falls back from `title` to `name` to empty. The media id falls back from `videoId` to `video_id` to `id` to empty |
| Exporter.CsvLines | playlist_exporter.py:82-89 | the header `Title, Artists, MediaId`, then one row per track in order |
| Exporter.WriteCsv | playlist_exporter.py:81-89 | the writing loop produces the header and then exactly one row per track, in order |
| Exporter.ExportedRowRead | playlist_exporter.py:84-89 | the importer reads an exported row back into a song of the file's playlist, with the stripped cells, the media id, and a search flag exactly when the id is empty and the title is not |
| Exporter.GroupedOne | playlist_importer.py:189-197 | entries that all name one playlist group into that single playlist with their songs in order |
| Exporter.ExportThenImport | playlist_exporter.py:78-93 | importing an exported file gives one playlist, named after the file, holding one song per track in order; an empty export gives no playlist |
| Exporter.ExportedFileStem | playlist_exporter.py:118-120 | the importer names the playlist of an exported file after the sanitised title, unless that title is only dots |
| Exporter.BaseNameJoined | playlist_exporter.py:120 | the base name of a file joined to the output directory is the file's name |
| Exporter.MatchesSpec | playlist_exporter.py:103-105 | the comprehension keeps only listed entries that pass the condition; it is empty exactly when none pass, and else starts with the first that passes |
| Exporter.ExactIsPartial | playlist_exporter.py:103-105 | an exact title match is also a partial one |
| Exporter.ChooseSpec | playlist_exporter.py:102-111 | no playlist is chosen exactly when no title contains the target. The first exact match is chosen when one exists. Otherwise the first partial match is chosen |
| Exporter.PlaylistTracks | playlist_exporter.py:69-76 | `_get_playlist_tracks` gives nothing exactly when the fetch raised. Otherwise it gives the tracks (none when the key is missing) and the title, or `playlist_<id>` when the title is missing or empty |
| Exporter.FetchAndWrite | playlist_exporter.py:114-124 | a fetch that raises fails the export. Otherwise the tracks' lines go to the sanitised title's `.csv` in the output directory, and the result is the write's success |
| Exporter.ExportByName | playlist_exporter.py:95-124 | the export fails when listing raises. It reports not found exactly when no title matches. Otherwise it fetches and writes the chosen playlist |
| Exporter.ExportAll | playlist_exporter.py:126-149 | it returns false only when listing raises; otherwise it counts the files written, skipping playlists whose fetch raised or whose write failed |
| Exporter.ExportedNames | playlist_exporter.py:134-145 | every written file is the sanitised title (or id) of a listed playlist whose fetch succeeded, in the output directory |

## Left out

- Console and file I/O are not modelled; the model sees their contents as values:
  - `print` and progress messages (including the every-tenth-failure warning and the `export_all` summary line) are not modelled;
  - `traceback` is not modelled;
  - opening, reading and writing the CSV files and `browser.json` are not modelled;
  - `input()` is replaced by a sequence of lines;
  - `json.dump` of the setup headers is not modelled.
- `main` of both scripts is not modelled: argument parsing, glob-based file discovery, the loop that counts imported playlists, and the `YTMusic` client construction. The `sys.exit` calls of `_ensure_browser_json` are error values.
- The Spotify client is not modelled. `parse_spotify_playlist` is modelled only as the song record it builds (`SpotifySongAsWritten`), because the playlist data comes from the spotipy library.
- `time.sleep` rate limiting is left out because it only affects timing.
- `ImportRun.PickFirst` takes the search reply as given: the `filter='songs', limit=5` arguments are the service's business.
- CSV quoting and encoding are not modelled. The written rows are the rows the importer reads back (`ExportThenImport`).
- `CsvImport.CsvTable.records` holds the records `csv.DictReader` yields. The lines without fields, which it skips, are not in it. Fields beyond the header (DictReader's `restkey`) are never read by the importer and are ignored.
- The case folding of `export_by_name` (`casefold`) is a function parameter `fold`. The `.lower()` of header names is ASCII lowering.
- `str.isspace` and the regular-expression class `\s` share an explicit whitespace predicate.
- CurlAuth.CurlHeaders: extracts `X-Goog-AuthUser` with the corrected pattern `[Xx]-[Gg]oog-[Aa]uth[Uu]ser` of "## Findings", not the case-sensitive `X-Goog-AuthUser` of the source. So for a lower-case `x-goog-authuser` argument the model stores the header where the source stores none (`AuthUserMissedAsWritten` covers the source's behaviour). `CurlAuth.SetupAuthentication` inherits this.
- CsvImport.BaseName: models POSIX `os.path.basename`, which splits at `/` only. On Windows, `\` also separates, and a path such as `C:\music\list.csv` would there give the playlist `list`.
- `Exporter.PathJoin` models `os.path.join` with `/` only: absolute file names and Windows separators are not modelled, because a sanitised name has no `/`.
- `get_library_playlists(...) or []` turning `None` into an empty list is part of the `listing` oracle.
- `BrowserJson.HasSapisid` refuses a cookie that is not a string, where Python behaves differently (playlist_exporter.py:42-43):
  - a truthy number or `true` makes `in` raise `TypeError`;
  - for a list, `in` tests whether `SAPISID` is an element, so `["SAPISID"]` is accepted;
  - for an object, `in` tests whether `SAPISID` is a key, so `{"SAPISID": 1}` is accepted.

  The model refuses all of these cookies.
- A `browser.json` whose top level is not a JSON object makes `headers.get` raise `AttributeError` (playlist_exporter.py:42). `BrowserJson.BrowserFile` always holds a key-value map, so that crash is not modelled.
- The iteration order of `headers.items()` is not modelled. The conversion loop picks keys in any order and is proved for every order.
- The failure of rewriting `browser.json` (`except Exception: pass`) is not modelled. The model returns only whether the file would be rewritten.
- The test `not line.startswith(' ')` in the exporter's parser is always true after `strip()`, so the model treats every line with `:` as a header line.
- The same parser's `elif current_header and line` is folded into the cookie test, because `current_header == 'cookie'` implies both.
- The code has no search cache, no retries, no batched additions, no mode that appends to an existing playlist and no ranking of search results, so the model has none either.
- Exporter.ExportByName and Exporter.ExportAll: `os.makedirs(out_dir, exist_ok=True)` (playlist_exporter.py:119, 132) is not modelled. An `OSError` it raises escapes both functions, while the model always returns a value.
- Exporter.PlaylistTracks: a `get_playlist` reply of `None` makes `data.get` raise outside the `try` (playlist_exporter.py:75). The fetch oracle always yields a key-value map, so that crash is not modelled.
- `RawHeaders.SplitLines` models `str.splitlines` with Python's line-break characters and the `\r\n` pair. The exporter's input loop, which reads until end of input, is the `pasted` sequence.
- `BrowserJson.EnsureIdempotent` is stated for files whose `Cookie` key does not hold a non-string value and whose non-string values print as non-empty text. `NumericCookieRefused` shows that the first condition is needed.

## Findings

| source | as written | input that shows it | evidently intended | confidence | as-written member | corrected member |
|---|---|---|---|---|---|---|
| playlist_importer.py:51 | the pattern `X-Goog-AuthUser` has no case alternatives, unlike `[Uu]ser-[Aa]gent` and `[Cc]ookie` beside it | the cURL argument `-H 'x-goog-authuser: 0'`, as browsers that copy header names in lower case write it | `[Xx]-[Gg]oog-[Aa]uth[Uu]ser`, matching the header in either case | medium, not executed | CurlAuth.AuthUserMissedAsWritten | CurlAuth.AuthUserFound |
| playlist_importer.py:109-113 | Spotify tracks are recorded with `'videoId': None` and no `search_needed` key, and `import_playlist` searches only when `song.get('search_needed')` is truthy | any Spotify track, e.g. title "Song A" | the comment "Will search for this": a titled track is searched for | high, not executed | ImportRun.SpotifySongNeverSearched | ImportRun.SpotifySongSearched |
