/** The video-id extraction from a track URL in the CSV importer: the first
    match of `(?:v=|youtu\.be/)([a-zA-Z0-9_-]{11})`, written as a scanner. */
module UrlId {
  import opened Text

  /** One character of the class `[a-zA-Z0-9_-]`. */
  predicate IsIdChar(c: char)
  {
    ('a' <= c <= 'z') || ('A' <= c <= 'Z') || ('0' <= c <= '9') || c == '_' || c == '-'
  }

  const IdLength: nat := 11

  /** The eleven id characters `[a-zA-Z0-9_-]{11}` starting at `j`, if they are there. */
  function IdAt(s: string, j: nat): (r: Option<string>)
    ensures r.Some? <==> j + IdLength <= |s| && forall k :: j <= k < j + IdLength ==> IsIdChar(s[k])
    ensures r.Some? ==> r.value == s[j..j + IdLength]
  {
    if j + IdLength <= |s| && forall k :: j <= k < j + IdLength ==> IsIdChar(s[k]) then
      Some(s[j..j + IdLength])
    else
      None
  }

  /** The group the pattern captures when its match starts at `i`: the
      `v=` alternative is tried before the `youtu.be/` one. */
  function MatchAt(s: string, i: nat): Option<string>
  {
    if LiteralAt(s, "v=", i) && IdAt(s, i + 2).Some? then IdAt(s, i + 2)
    else if LiteralAt(s, "youtu.be/", i) then IdAt(s, i + 9)
    else None
  }

  /** `re.search(pattern, url)` followed by `match.group(1)`. */
  function ExtractVideoId(url: string): Option<string>
  {
    FirstMatch(url, MatchAt, 0)
  }

  /** The id can be read off at position `i`: right after a `v=` or a
      `youtu.be/` that starts there, eleven characters of the id class. */
  ghost predicate IdFollowsAt(url: string, i: nat, id: string)
  {
    |id| == IdLength && (forall k :: 0 <= k < |id| ==> IsIdChar(id[k]))
    && ((LiteralAt(url, "v=", i) && i + 2 + IdLength <= |url| && url[i + 2..i + 2 + IdLength] == id)
        || (LiteralAt(url, "youtu.be/", i) && i + 9 + IdLength <= |url| && url[i + 9..i + 9 + IdLength] == id))
  }

  lemma MatchAtSound(url: string, i: nat)
    ensures MatchAt(url, i).Some? ==> IdFollowsAt(url, i, MatchAt(url, i).value)
    ensures (exists id :: IdFollowsAt(url, i, id)) ==> MatchAt(url, i).Some?
  {
    if exists id :: IdFollowsAt(url, i, id) {
      var id :| IdFollowsAt(url, i, id);
      if LiteralAt(url, "v=", i) && i + 2 + IdLength <= |url| && url[i + 2..i + 2 + IdLength] == id {
        forall k | i + 2 <= k < i + 2 + IdLength ensures IsIdChar(url[k]) {
          assert url[k] == id[k - (i + 2)];
        }
      } else {
        forall k | i + 9 <= k < i + 9 + IdLength ensures IsIdChar(url[k]) {
          assert url[k] == id[k - (i + 9)];
        }
      }
    }
  }

  /** When the pattern matches, the id has exactly eleven characters of the
      id class and follows `v=` or `youtu.be/` at the leftmost position where
      that is so; when it does not match, no position has such an id. */
  lemma ExtractVideoIdSpec(url: string)
    ensures ExtractVideoId(url).Some? ==>
      exists i :: 0 <= i <= |url| && IdFollowsAt(url, i, ExtractVideoId(url).value)
                  && forall j, id :: 0 <= j < i ==> !IdFollowsAt(url, j, id)
    ensures ExtractVideoId(url).None? ==> forall i, id :: 0 <= i <= |url| ==> !IdFollowsAt(url, i, id)
  {
    var r := ExtractVideoId(url);
    if r.Some? {
      var i :| 0 <= i <= |url| && MatchAt(url, i) == r && forall j :: 0 <= j < i ==> MatchAt(url, j) == None;
      MatchAtSound(url, i);
      forall j, id | 0 <= j < i ensures !IdFollowsAt(url, j, id) {
        MatchAtSound(url, j);
      }
    } else {
      forall i, id | 0 <= i <= |url| ensures !IdFollowsAt(url, i, id) {
        MatchAtSound(url, i);
      }
    }
  }

  /** No match can start at a character that begins neither alternative. */
  lemma NoMatchAt(s: string, i: nat)
    requires i < |s| && s[i] != 'v' && s[i] != 'y'
    ensures MatchAt(s, i) == None
  {
  }

  /** An id read off after `lit` at `i`, when `lit` is where the scanner
      looks for one. */
  lemma IdAfter(s: string, i: nat, lit: string, id: string)
    requires |id| == IdLength && forall k :: 0 <= k < |id| ==> IsIdChar(id[k])
    requires LiteralAt(s, lit, i) && i + |lit| + IdLength <= |s| && s[i + |lit|..i + |lit| + IdLength] == id
    ensures IdAt(s, i + |lit|) == Some(id)
  {
    forall k | i + |lit| <= k < i + |lit| + IdLength ensures IsIdChar(s[k]) {
      assert s[k] == id[k - i - |lit|];
    }
  }

  const SampleId: string := "dQw4w9WgXcQ"

  lemma SampleIdChars()
    ensures |SampleId| == IdLength && forall k :: 0 <= k < |SampleId| ==> IsIdChar(SampleId[k])
  {
  }

  /** A watch-page query parameter. */
  lemma ExtractFromWatchUrl()
    ensures ExtractVideoId("watch?v=dQw4w9WgXcQ&t=1") == Some(SampleId)
  {
    var u := "watch?v=dQw4w9WgXcQ&t=1";
    assert forall j :: 0 <= j < 6 ==> MatchAt(u, j) == None by {
      forall j | 0 <= j < 6 ensures MatchAt(u, j) == None {
        NoMatchAt(u, j);
      }
    }
    assert MatchAt(u, 6) == Some(SampleId) by {
      assert u == "watch?" + ("v=" + (SampleId + "&t=1"));
      assert u[6..8] == "v=";
      assert u[8..19] == SampleId;
      SampleIdChars();
      IdAfter(u, 6, "v=", SampleId);
    }
    FirstMatchIs(u, MatchAt, 0, 6);
  }

  /** A shortened-domain path. */
  lemma ExtractFromShortUrl()
    ensures ExtractVideoId("https://youtu.be/dQw4w9WgXcQ") == Some(SampleId)
  {
    var u := "https://youtu.be/dQw4w9WgXcQ";
    assert forall j :: 0 <= j < 8 ==> MatchAt(u, j) == None by {
      forall j | 0 <= j < 8 ensures MatchAt(u, j) == None {
        NoMatchAt(u, j);
      }
    }
    assert MatchAt(u, 8) == Some(SampleId) by {
      assert u == "https://" + ("youtu.be/" + SampleId);
      assert !LiteralAt(u, "v=", 8) by { assert u[8] == 'y'; }
      assert u[8..17] == "youtu.be/";
      assert u[17..28] == SampleId;
      SampleIdChars();
      IdAfter(u, 8, "youtu.be/", SampleId);
    }
    FirstMatchIs(u, MatchAt, 0, 8);
  }
}
