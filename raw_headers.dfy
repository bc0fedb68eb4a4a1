/** The exporter's authentication setup (`setup_authentication` in
    playlist_exporter.py): parse pasted request headers, one `Name: value`
    per line, where lines without a colon continue the Cookie header; refuse
    a cookie without `SAPISID` and fill in a default User-Agent. */
module RawHeaders {
  import opened Text

  /** The characters at which Python's `str.splitlines` breaks a line. */
  predicate IsLineBreak(c: char)
  {
    c == '\n' || c == '\r' || c == '\U{0B}' || c == '\U{0C}' || ('\U{1C}' <= c <= '\U{1E}')
    || c == '\U{85}' || c == '\U{2028}' || c == '\U{2029}'
  }

  /** The first line break at or after `j`, or the end of `s`. */
  function BreakFrom(s: string, j: nat): (e: nat)
    requires j <= |s|
    ensures j <= e <= |s|
    ensures forall k :: j <= k < e ==> !IsLineBreak(s[k])
    ensures e == |s| || IsLineBreak(s[e])
    decreases |s| - j
  {
    if j == |s| || IsLineBreak(s[j]) then j else BreakFrom(s, j + 1)
  }

  /** Python's `s.splitlines()`: `\r\n` is one break, and a break at the very
      end does not start another line. */
  function SplitLines(s: string): (r: seq<string>)
    ensures s == [] <==> r == []
    ensures forall k, i :: 0 <= k < |r| && 0 <= i < |r[k]| ==> !IsLineBreak(r[k][i])
    ensures (forall i :: 0 <= i < |s| ==> !IsLineBreak(s[i])) && s != [] ==> r == [s]
    decreases |s|
  {
    if s == [] then []
    else
      var e := BreakFrom(s, 0);
      if e == |s| then [s]
      else
        var w := if s[e] == '\r' && e + 1 < |s| && s[e + 1] == '\n' then 2 else 1;
        [s[..e]] + SplitLines(s[e + w..])
  }

  /** `a` holds no line break. */
  predicate NoBreak(a: string)
  {
    forall i :: 0 <= i < |a| ==> !IsLineBreak(a[i])
  }

  /** A line `a` ended by a single break character `c` (not the `\r` of a
      `\r\n` pair) is the first line, and the lines of the rest follow. */
  lemma SplitLinesBreak(a: string, c: char, b: string)
    requires NoBreak(a) && IsLineBreak(c)
    requires !(c == '\r' && b != [] && b[0] == '\n')
    ensures SplitLines(a + [c] + b) == [a] + SplitLines(b)
  {
    var s := a + [c] + b;
    assert s[|a|] == c;
    assert forall i :: 0 <= i < |a| ==> s[i] == a[i];
    var e := BreakFrom(s, 0);
    assert e == |a|;
    assert s[..e] == a;
    assert s[e + 1..] == b;
  }

  /** A line `a` ended by `\r\n` is the first line, and the lines of the
      rest follow. */
  lemma SplitLinesCrLf(a: string, b: string)
    requires NoBreak(a)
    ensures SplitLines(a + "\r\n" + b) == [a] + SplitLines(b)
  {
    var s := a + "\r\n" + b;
    assert s[|a|] == '\r' && s[|a| + 1] == '\n';
    assert forall i :: 0 <= i < |a| ==> s[i] == a[i];
    var e := BreakFrom(s, 0);
    assert e == |a|;
    assert s[..e] == a;
    assert s[e + 2..] == b;
  }

  /** The first occurrence of `c` in `s` at or after `j`, or `|s|`. */
  function IndexOf(s: string, c: char, j: nat): (k: nat)
    requires j <= |s|
    ensures j <= k <= |s|
    ensures forall i :: j <= i < k ==> s[i] != c
    ensures k == |s| || s[k] == c
    decreases |s| - j
  {
    if j == |s| || s[j] == c then j else IndexOf(s, c, j + 1)
  }

  /** The key under which a header named `key` is stored: the five headers
      the library needs get their canonical spelling whatever their case;
      any other name is kept as written. */
  function CanonicalKey(key: string): (r: string)
    ensures Lower(key) == "user-agent" ==> r == "User-Agent"
    ensures Lower(key) == "cookie" ==> r == "Cookie"
    ensures Lower(key) == "x-goog-authuser" ==> r == "X-Goog-AuthUser"
    ensures Lower(key) == "authorization" ==> r == "Authorization"
    ensures Lower(key) == "x-goog-visitor-id" ==> r == "X-Goog-Visitor-Id"
    ensures Lower(key) !in {"user-agent", "cookie", "x-goog-authuser", "authorization", "x-goog-visitor-id"} ==> r == key
    ensures r !in CanonicalNames ==> r == key
  {
    var lk := Lower(key);
    if lk == "user-agent" then "User-Agent"
    else if lk == "cookie" then "Cookie"
    else if lk == "x-goog-authuser" then "X-Goog-AuthUser"
    else if lk == "authorization" then "Authorization"
    else if lk == "x-goog-visitor-id" then "X-Goog-Visitor-Id"
    else key
  }

  const CanonicalNames: set<string> :=
    {"User-Agent", "Cookie", "X-Goog-AuthUser", "Authorization", "X-Goog-Visitor-Id"}

  /** Two spellings of one of the five names that differ only in case are
      stored under the same key. */
  lemma CanonicalKeyIgnoresCase(k1: string, k2: string)
    requires Lower(k1) == Lower(k2)
    requires Lower(k1) in {"user-agent", "cookie", "x-goog-authuser", "authorization", "x-goog-visitor-id"}
    ensures CanonicalKey(k1) == CanonicalKey(k2) && CanonicalKey(k1) in CanonicalNames
  {
  }

  /** The dictionary built so far and `current_header`, the lowered name of
      the last header line (`None` before the first). */
  datatype ParseState = ParseState(headers: map<string, string>, current: Option<string>)

  /** `headers.get(key, '')`. */
  function GetOrEmpty(h: map<string, string>, key: string): string
  {
    if key in h then h[key] else ""
  }

  /** What a stripped, non-empty line does to the state. */
  function LineStep(st: ParseState, line: string): ParseState
  {
    if ':' in line then
      var k := IndexOf(line, ':', 0);
      var key := Strip(line[..k]);
      ParseState(st.headers[CanonicalKey(key) := Strip(line[k + 1..])], Some(Lower(key)))
    else if st.current == Some("cookie") then
      ParseState(st.headers["Cookie" := GetOrEmpty(st.headers, "Cookie") + " " + line], st.current)
    else st
  }

  /** One pass of the loop over the pasted lines. */
  function Step(st: ParseState, raw: string): ParseState
  {
    var line := Strip(raw);
    if line == [] then st else LineStep(st, line)
  }

  /** The state after the loop has seen `lines`. */
  function Parse(lines: seq<string>): ParseState
  {
    if lines == [] then ParseState(map[], None)
    else Step(Parse(lines[..|lines| - 1]), lines[|lines| - 1])
  }

  /** One more line is one more step. */
  lemma ParseSnoc(lines: seq<string>, i: nat)
    requires i < |lines|
    ensures Parse(lines[..i + 1]) == Step(Parse(lines[..i]), lines[i])
  {
    assert lines[..i + 1][..i] == lines[..i];
  }

  /** The loop of `setup_authentication` that fills `headers`. */
  method ParseHeaderLines(lines: seq<string>) returns (headers: map<string, string>)
    ensures headers == Parse(lines).headers
  {
    headers := map[];
    var current: Option<string> := None;
    for i := 0 to |lines|
      invariant ParseState(headers, current) == Parse(lines[..i])
    {
      ParseSnoc(lines, i);
      var next := Step(ParseState(headers, current), lines[i]);
      headers, current := next.headers, next.current;
    }
    assert lines[..|lines|] == lines;
  }

  // ----- What one line does -----

  /** A blank line changes nothing. */
  lemma BlankLineIgnored(st: ParseState, raw: string)
    requires AllSpace(raw)
    ensures Step(st, raw) == st
  {
  }

  /** A line without a colon extends the Cookie value, after one space, when
      the last header was the cookie, and is ignored otherwise. */
  lemma ContinuationLine(st: ParseState, raw: string)
    requires Strip(raw) != [] && ':' !in Strip(raw)
    ensures st.current == Some("cookie") ==>
              Step(st, raw) == ParseState(st.headers["Cookie" := GetOrEmpty(st.headers, "Cookie") + " " + Strip(raw)], st.current)
    ensures st.current != Some("cookie") ==> Step(st, raw) == st
  {
  }

  /** Nothing to trim before `t:x` when `t` starts with a non-space. */
  lemma KeepStart(t: string, x: string)
    requires t == [] || !IsSpace(t[0])
    ensures TrimStart(t + ":" + x) == t + ":" + x
  {
    var s := t + ":" + x;
    if t == [] {
      assert s[0] == ':';
    } else {
      assert s[0] == t[0];
    }
    NoTrimStart(s);
  }

  /** Nothing to trim after `y:u` when `u` ends with a non-space. */
  lemma KeepEnd(y: string, u: string)
    requires u == [] || !IsSpace(u[|u| - 1])
    ensures TrimEnd(y + ":" + u) == y + ":" + u
  {
    var s := y + ":" + u;
    if u == [] {
      assert s[|s| - 1] == ':';
    } else {
      assert s[|s| - 1] == u[|u| - 1];
    }
    NoTrimEnd(s);
  }

  /** Trimming the left of `a:b` trims only `a`. */
  lemma StartAroundColon(a: string, b: string)
    ensures TrimStart(a + ":" + b) == TrimStart(a) + ":" + b
  {
    var t := TrimStart(a);
    var lead := a[..|a| - |t|];
    assert a == lead + t;
    assert a + ":" + b == lead + (t + ":" + b);
    TrimStartOfSpaces(lead, t + ":" + b);
    KeepStart(t, b);
  }

  /** Trimming the right of `t:b` trims only `b`. */
  lemma EndAroundColon(t: string, b: string)
    ensures TrimEnd(t + ":" + b) == t + ":" + TrimEnd(b)
  {
    var u := TrimEnd(b);
    var tail := b[|u|..];
    assert b == u + tail;
    assert t + ":" + b == (t + ":" + u) + tail;
    TrimEndOfSpaces(t + ":" + u, tail);
    KeepEnd(t, u);
  }

  /** Stripping `a:b` strips `a` on the left and `b` on the right only. */
  lemma StripAroundColon(a: string, b: string)
    ensures Strip(a + ":" + b) == TrimStart(a) + ":" + TrimEnd(b)
  {
    StartAroundColon(a, b);
    EndAroundColon(TrimStart(a), b);
  }

  lemma StripTrimStart(a: string)
    ensures Strip(TrimStart(a)) == Strip(a)
  {
    var t := TrimStart(a);
    if t != [] {
      NoTrimStart(t);
    }
  }

  lemma Regroup(x: string, m: string, y: string, z: string)
    ensures (x + (m + y)) + z == x + (m + (y + z))
  {
  }

  /** Whitespace added at the right does not change what `strip` keeps. */
  lemma StripAppendSpaces(u: string, tail: string)
    requires AllSpace(tail)
    ensures Strip(u + tail) == Strip(u)
  {
    var x, y := StripSplits(u);
    Regroup(x, Strip(u), y, tail);
    SpacesJoin(y, tail);
    StripUnique(x, Strip(u), y + tail);
  }

  /** Trimming the right first does not change what `strip` keeps. */
  lemma StripTrimEnd(b: string)
    ensures Strip(TrimEnd(b)) == Strip(b)
  {
    var u := TrimEnd(b);
    Halves(b, |u|);
    StripAppendSpaces(u, b[|u|..]);
  }

  /** In `t:u` with no colon in `t`, the first colon follows `t`. */
  lemma FirstColon(line: string, t: string, u: string)
    requires ':' !in t && line == t + ":" + u
    ensures ':' in line && IndexOf(line, ':', 0) == |t|
    ensures line[..|t|] == t && line[|t| + 1..] == u
  {
    assert line[|t|] == ':';
    forall i | 0 <= i < |t| ensures line[i] != ':' {
      assert line[i] == t[i];
    }
  }

  /** A suffix of a text without a colon has no colon. */
  lemma NoColonSuffix(a: string, t: string)
    requires ':' !in a && |t| <= |a| && t == a[|a| - |t|..]
    ensures ':' !in t
  {
    forall i | 0 <= i < |t| ensures t[i] != ':' {
      assert t[i] == a[|a| - |t| + i];
    }
  }

  /** What a line does whose stripped form is `t:u` with no colon in `t`. */
  lemma StepOnHeaderLine(st: ParseState, raw: string, t: string, u: string)
    requires Strip(raw) == t + ":" + u && ':' !in t
    ensures Step(st, raw) == ParseState(st.headers[CanonicalKey(Strip(t)) := Strip(u)], Some(Lower(Strip(t))))
  {
    FirstColon(Strip(raw), t, u);
  }

  /** A line `a:b` whose name part `a` has no colon stores the stripped
      value of `b` under the canonical key of the stripped name `a`; every
      other entry is kept, so a later line for the same key overwrites. */
  lemma HeaderLineStored(st: ParseState, a: string, b: string)
    requires ':' !in a
    ensures Step(st, a + ":" + b) == ParseState(st.headers[CanonicalKey(Strip(a)) := Strip(b)], Some(Lower(Strip(a))))
  {
    StripAroundColon(a, b);
    NoColonSuffix(a, TrimStart(a));
    StepOnHeaderLine(st, a + ":" + b, TrimStart(a), TrimEnd(b));
    StripTrimStart(a);
    StripTrimEnd(b);
  }

  // ----- The whole setup -----

  const DefaultUserAgent := "Mozilla/5.0 (Windows NT 10.0; Win64; x64) AppleWebKit/537.36"

  datatype SetupError = NothingPasted | MissingSapisid

  /** The checks made on the parsed dictionary before it is saved: a
      `Cookie` holding `SAPISID` is required, and a missing or empty
      `User-Agent` gets the default one. */
  method CheckHeaders(headers: map<string, string>) returns (r: Result<map<string, string>, SetupError>)
    ensures r.Err? <==> "Cookie" !in headers || !Contains(headers["Cookie"], "SAPISID")
    ensures r.Err? ==> r.error == MissingSapisid
    ensures r.Ok? ==> "Cookie" in r.value && Contains(r.value["Cookie"], "SAPISID")
    ensures r.Ok? ==> "User-Agent" in r.value && r.value["User-Agent"] != ""
    ensures r.Ok? ==> && r.value.Keys == headers.Keys + {"User-Agent"}
                      && (forall k :: k in headers && k != "User-Agent" ==> r.value[k] == headers[k])
                      && ("User-Agent" in headers && headers["User-Agent"] != "" ==> r.value["User-Agent"] == headers["User-Agent"])
                      && ("User-Agent" !in headers || headers["User-Agent"] == "" ==> r.value["User-Agent"] == DefaultUserAgent)
  {
    if "Cookie" !in headers || headers["Cookie"] == "" || !Contains(headers["Cookie"], "SAPISID") {
      return Err(MissingSapisid);
    }
    var h := headers;
    if "User-Agent" !in h || h["User-Agent"] == "" {
      assert "Cookie" != "User-Agent";
      h := h["User-Agent" := DefaultUserAgent];
    }
    return Ok(h);
  }

  /** `setup_authentication` up to the dictionary it saves as browser.json,
      from the lines read before the end of input. */
  method SetupAuthentication(pasted: seq<string>) returns (r: Result<map<string, string>, SetupError>)
    ensures r == Err(NothingPasted) <==> Strip(Join(pasted, "\n")) == []
    ensures r.Ok? ==> "Cookie" in r.value && Contains(r.value["Cookie"], "SAPISID")
    ensures r.Ok? ==> "User-Agent" in r.value && r.value["User-Agent"] != ""
    ensures r.Ok? ==> var parsed := Parse(SplitLines(Join(pasted, "\n"))).headers;
                      && r.value.Keys == parsed.Keys + {"User-Agent"}
                      && (forall k :: k in parsed && k != "User-Agent" ==> r.value[k] == parsed[k])
                      && ("User-Agent" in parsed && parsed["User-Agent"] != "" ==> r.value["User-Agent"] == parsed["User-Agent"])
                      && ("User-Agent" !in parsed || parsed["User-Agent"] == "" ==> r.value["User-Agent"] == DefaultUserAgent)
    ensures r == Err(MissingSapisid) <==>
              Strip(Join(pasted, "\n")) != []
              && var parsed := Parse(SplitLines(Join(pasted, "\n"))).headers;
                 "Cookie" !in parsed || !Contains(parsed["Cookie"], "SAPISID")
  {
    var raw := Join(pasted, "\n");
    if Strip(raw) == [] {
      return Err(NothingPasted);
    }
    var headers := ParseHeaderLines(SplitLines(raw));
    r := CheckHeaders(headers);
  }
}
