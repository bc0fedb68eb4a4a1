/** The importer's authentication setup (`setup_authentication` in
    playlist_importer.py): read a pasted "Copy as cURL" command, pick the
    User-Agent, Cookie and X-Goog-AuthUser headers out of its `-H '...'`
    arguments, and refuse a cookie without `SAPISID`. */
module CurlAuth {
  import opened Text

  /** The first empty line at or after `j`, or the end of the input. */
  function BlankFrom(input: seq<string>, j: nat): (e: nat)
    requires j <= |input|
    ensures j <= e <= |input|
    ensures forall k :: j <= k < e ==> input[k] != ""
    ensures e == |input| || input[e] == ""
    decreases |input| - j
  {
    if j == |input| || input[j] == "" then j else BlankFrom(input, j + 1)
  }

  /** The lines the input loop keeps: the first line whatever it is, then
      every line up to the next empty one; `None` when the input ends first. */
  function PastedLines(input: seq<string>): Option<seq<string>>
  {
    if input == [] then None
    else
      var e := BlankFrom(input, 1);
      if e == |input| then None else Some(input[..e])
  }

  /** The pasted lines: everything up to the first empty line that is not
      the very first line. `None` when the input ends first, where Python's
      `input()` raises `EOFError`. */
  method ReadPasted(input: seq<string>) returns (r: Option<seq<string>>)
    ensures r == PastedLines(input)
    ensures r.Some? ==> 1 <= |r.value| < |input| && r.value == input[..|r.value|]
                        && input[|r.value|] == ""
                        && forall j :: 1 <= j < |r.value| ==> input[j] != ""
    ensures r.None? ==> forall j :: 1 <= j < |input| ==> input[j] != ""
  {
    var lines: seq<string> := [];
    while true
      invariant |lines| <= |input| && lines == input[..|lines|]
      invariant forall j :: 1 <= j < |lines| ==> input[j] != ""
      decreases |input| - |lines|
    {
      if |lines| == |input| {
        return None;
      }
      var line := input[|lines|];
      if line == "" && lines != [] {
        return Some(lines);
      }
      lines := lines + [line];
    }
  }

  /** A header-name pattern: the characters allowed at each position, as the
      regular expression `[Uu]ser-[Aa]gent` allows `U` or `u` first. */
  type NamePattern = seq<string>

  const UserAgentPattern: NamePattern := ["Uu", "s", "e", "r", "-", "Aa", "g", "e", "n", "t"]
  const CookiePattern: NamePattern := ["Cc", "o", "o", "k", "i", "e"]
  /** `X-Goog-AuthUser` as the source spells it, with no case alternatives. */
  const AuthUserPatternAsWritten: NamePattern :=
    ["X", "-", "G", "o", "o", "g", "-", "A", "u", "t", "h", "U", "s", "e", "r"]
  /** `[Xx]-[Gg]oog-[Aa]uth[Uu]ser`, in the style of the other two patterns. */
  const AuthUserPattern: NamePattern :=
    ["Xx", "-", "Gg", "o", "o", "g", "-", "Aa", "u", "t", "h", "Uu", "s", "e", "r"]

  /** No position of the pattern allows a colon. */
  predicate NoColon(p: NamePattern)
  {
    forall k :: 0 <= k < |p| ==> ':' !in p[k]
  }

  /** The header name matches `p` at position `i` of `s`. */
  predicate NameAt(s: string, p: NamePattern, i: nat)
  {
    i + |p| <= |s| && forall k :: 0 <= k < |p| ==> s[i + k] in p[k]
  }

  /** The first quote at or after `j`, or the end of `s`. */
  function QuoteFrom(s: string, j: nat): (e: nat)
    requires j <= |s|
    ensures j <= e <= |s|
    ensures forall k :: j <= k < e ==> s[k] != '\''
    ensures e == |s| || s[e] == '\''
    decreases |s| - j
  {
    if j == |s| || s[j] == '\'' then j else QuoteFrom(s, j + 1)
  }

  /** Group 1 of `-H '(<name>: [^']+)'` when the match starts at `i`. The
      greedy `[^']+` must be followed by a quote, so it takes the whole run
      of non-quote characters. */
  function HeaderGroupAt(p: NamePattern, s: string, i: nat): Option<string>
  {
    if LiteralAt(s, "-H '", i) && NameAt(s, p, i + 4) && LiteralAt(s, ": ", i + 4 + |p|) then
      var v := i + 4 + |p| + 2;
      var e := QuoteFrom(s, v);
      if v < e < |s| then Some(s[i + 4..e]) else None
    else None
  }

  /** The matcher of `HeaderGroupAt` for one pattern, as `FirstMatch` takes it. */
  function GroupMatcher(p: NamePattern): (string, nat) -> Option<string>
  {
    (s: string, i: nat) => HeaderGroupAt(p, s, i)
  }

  /** The matcher that yields what follows `sep` when `sep` starts at `i`. */
  function SepMatcher(sep: string): (string, nat) -> Option<string>
  {
    (t: string, i: nat) => if OccursAt(t, sep, i) then Some(t[i + |sep|..]) else None
  }

  /** `text.split(sep, 1)[1]`: what follows the first occurrence of `sep`. */
  function AfterFirst(text: string, sep: string): Option<string>
  {
    FirstMatch(text, SepMatcher(sep), 0)
  }

  /** `re.search(r"-H '(<name>: [^']+)'", cmd)` and then `group(1).split(': ', 1)[1]`. */
  function ExtractHeader(cmd: string, p: NamePattern): Option<string>
  {
    match FirstMatch(cmd, GroupMatcher(p), 0)
    case None => None
    case Some(g) => AfterFirst(g, ": ")
  }

  /** At position `i` of `cmd` stands `-H '`, a name matching `p`, `: `, then
      `v`: a non-empty run without quotes, closed by a quote. */
  ghost predicate HeaderValueAt(cmd: string, p: NamePattern, i: nat, v: string)
  {
    var j := i + 4 + |p| + 2;
    && LiteralAt(cmd, "-H '", i) && NameAt(cmd, p, i + 4) && LiteralAt(cmd, ": ", i + 4 + |p|)
    && v != [] && j + |v| < |cmd| && cmd[j..j + |v|] == v && cmd[j + |v|] == '\''
    && forall k :: 0 <= k < |v| ==> v[k] != '\''
  }

  /** The group at `i` splits, at its first `: `, into the name and the value
      run, because the name cannot hold a colon. */
  lemma GroupValue(p: NamePattern, s: string, i: nat)
    requires NoColon(p) && HeaderGroupAt(p, s, i).Some?
    ensures var j := i + 4 + |p| + 2;
            var e := QuoteFrom(s, j);
            AfterFirst(HeaderGroupAt(p, s, i).value, ": ") == Some(s[j..e])
  {
    var g := HeaderGroupAt(p, s, i).value;
    var j := i + 4 + |p| + 2;
    var e := QuoteFrom(s, j);
    var at := SepMatcher(": ");
    assert g == s[i + 4..e];
    assert g[|p|..|p| + 2] == s[i + 4 + |p|..j];
    assert at(g, |p|) == Some(s[j..e]);
    forall k | 0 <= k < |p| ensures at(g, k) == None {
      assert g[k] == s[i + 4 + k];
      assert ':' !in p[k];
      if k + 2 <= |g| {
        assert g[k..k + 2][0] == g[k];
      }
    }
    FirstMatchIs(g, at, 0, |p|);
  }

  /** A value after the header at `i` makes the group there match. */
  lemma ValueGivesGroup(p: NamePattern, s: string, i: nat, v: string)
    requires HeaderValueAt(s, p, i, v)
    ensures HeaderGroupAt(p, s, i).Some?
  {
    var j := i + 4 + |p| + 2;
    forall k | j <= k < j + |v| ensures s[k] != '\'' {
      assert s[k] == v[k - j];
    }
    assert QuoteFrom(s, j) == j + |v|;
  }

  /** The group at `i` exists exactly when a value follows the header there,
      and that value is the one the split yields. */
  lemma GroupValueAt(p: NamePattern, s: string, i: nat)
    requires NoColon(p)
    ensures HeaderGroupAt(p, s, i).Some? ==>
              && AfterFirst(HeaderGroupAt(p, s, i).value, ": ").Some?
              && HeaderValueAt(s, p, i, AfterFirst(HeaderGroupAt(p, s, i).value, ": ").value)
    ensures (exists v :: HeaderValueAt(s, p, i, v)) ==> HeaderGroupAt(p, s, i).Some?
  {
    if HeaderGroupAt(p, s, i).Some? {
      GroupValue(p, s, i);
    }
    if exists v :: HeaderValueAt(s, p, i, v) {
      var v :| HeaderValueAt(s, p, i, v);
      ValueGivesGroup(p, s, i, v);
    }
  }

  /** An extracted value is the quoted text after the leftmost `-H '<name>: `
      that is followed by one: non-empty and free of quotes. */
  lemma ExtractedIsLeftmost(cmd: string, p: NamePattern)
    requires NoColon(p) && ExtractHeader(cmd, p).Some?
    ensures exists i :: 0 <= i <= |cmd| && HeaderValueAt(cmd, p, i, ExtractHeader(cmd, p).value)
                        && forall j, v :: 0 <= j < i ==> !HeaderValueAt(cmd, p, j, v)
  {
    var at := GroupMatcher(p);
    var found := FirstMatch(cmd, at, 0);
    var i :| 0 <= i <= |cmd| && at(cmd, i) == found && forall j :: 0 <= j < i ==> at(cmd, j) == None;
    assert found == HeaderGroupAt(p, cmd, i);
    GroupValueAt(p, cmd, i);
    forall j, v | 0 <= j < i ensures !HeaderValueAt(cmd, p, j, v) {
      assert at(cmd, j) == HeaderGroupAt(p, cmd, j);
      GroupValueAt(p, cmd, j);
    }
  }

  /** Nothing is extracted only when no header of that name carries a quoted value. */
  lemma NothingExtracted(cmd: string, p: NamePattern)
    requires NoColon(p) && ExtractHeader(cmd, p).None?
    ensures forall i, v :: 0 <= i <= |cmd| ==> !HeaderValueAt(cmd, p, i, v)
  {
    var at := GroupMatcher(p);
    var found := FirstMatch(cmd, at, 0);
    if found.Some? {
      var i :| 0 <= i <= |cmd| && at(cmd, i) == found;
      assert found == HeaderGroupAt(p, cmd, i);
      GroupValueAt(p, cmd, i);
    }
    forall i, v | 0 <= i <= |cmd| ensures !HeaderValueAt(cmd, p, i, v) {
      assert at(cmd, i) == HeaderGroupAt(p, cmd, i);
      GroupValueAt(p, cmd, i);
    }
  }

  lemma PatternsHaveNoColon()
    ensures NoColon(UserAgentPattern) && NoColon(CookiePattern)
    ensures NoColon(AuthUserPattern) && NoColon(AuthUserPatternAsWritten)
  {
  }

  /** `h` with `key` set to `v` when there is one. */
  function Put(h: map<string, string>, key: string, v: Option<string>): (r: map<string, string>)
    ensures r.Keys == if v.Some? then h.Keys + {key} else h.Keys
    ensures v.Some? ==> r[key] == v.value
    ensures forall k :: k in h && k != key ==> r[k] == h[k]
  {
    if v.Some? then h[key := v.value] else h
  }

  /** The dictionary the regular expressions build from the joined command. */
  function CurlHeaders(cmd: string): (h: map<string, string>)
    ensures h.Keys <= {"User-Agent", "Cookie", "X-Goog-AuthUser"}
    ensures "Cookie" in h <==> ExtractHeader(cmd, CookiePattern).Some?
    ensures "Cookie" in h ==> Some(h["Cookie"]) == ExtractHeader(cmd, CookiePattern)
    ensures "User-Agent" in h <==> ExtractHeader(cmd, UserAgentPattern).Some?
    ensures "User-Agent" in h ==> Some(h["User-Agent"]) == ExtractHeader(cmd, UserAgentPattern)
    ensures "X-Goog-AuthUser" in h <==> ExtractHeader(cmd, AuthUserPattern).Some?
    ensures "X-Goog-AuthUser" in h ==> Some(h["X-Goog-AuthUser"]) == ExtractHeader(cmd, AuthUserPattern)
  {
    var ua := ExtractHeader(cmd, UserAgentPattern);
    var cookie := ExtractHeader(cmd, CookiePattern);
    var user := ExtractHeader(cmd, AuthUserPattern);
    assert "User-Agent" != "Cookie" && "Cookie" != "X-Goog-AuthUser" && "User-Agent" != "X-Goog-AuthUser";
    Put(Put(Put(map[], "User-Agent", ua), "Cookie", cookie), "X-Goog-AuthUser", user)
  }

  datatype SetupError = EndOfInput | MissingSapisid

  /** `setup_authentication` up to the dictionary it saves as browser.json. */
  method SetupAuthentication(input: seq<string>) returns (r: Result<map<string, string>, SetupError>)
    ensures r.Ok? ==> "Cookie" in r.value && Contains(r.value["Cookie"], "SAPISID")
    ensures r.Ok? ==> r.value.Keys <= {"User-Agent", "Cookie", "X-Goog-AuthUser"}
    ensures r == Err(EndOfInput) <==> forall j :: 1 <= j < |input| ==> input[j] != ""
    ensures r == Err(EndOfInput) <==> PastedLines(input).None?
    // Once the lines are read, the setup succeeds exactly when the extracted
    // cookie holds `SAPISID`, and then saves the extracted headers.
    ensures PastedLines(input).Some? ==>
              var h := CurlHeaders(Join(PastedLines(input).value, " "));
              && (r.Ok? <==> "Cookie" in h && Contains(h["Cookie"], "SAPISID"))
              && (r.Ok? ==> r.value == h)
              && (!r.Ok? ==> r == Err(MissingSapisid))
  {
    var lines := ReadPasted(input);
    if lines.None? {
      return Err(EndOfInput);
    }
    var headers := CurlHeaders(Join(lines.value, " "));
    if "Cookie" !in headers || headers["Cookie"] == "" || !Contains(headers["Cookie"], "SAPISID") {
      return Err(MissingSapisid);
    }
    return Ok(headers);
  }

  // ----- The X-Goog-AuthUser header copied in lower case -----

  /** A browser that copies header names in lower case. */
  const LowerCaseAuthUser := "-H 'x-goog-authuser: 0'"

  /** Only position 0 of that argument starts with `-H`. */
  lemma OnlyStartAtZero(p: NamePattern, i: nat)
    requires 0 < i <= |LowerCaseAuthUser|
    ensures HeaderGroupAt(p, LowerCaseAuthUser, i) == None
  {
    var s := LowerCaseAuthUser;
    if i + 4 <= |s| {
      assert s[i..i + 4][1] == s[i + 1];
    }
  }

  /** As written, the pattern misses a lower-case `x-goog-authuser`. */
  lemma AuthUserMissedAsWritten()
    ensures ExtractHeader(LowerCaseAuthUser, AuthUserPatternAsWritten) == None
  {
    var s := LowerCaseAuthUser;
    var p := AuthUserPatternAsWritten;
    forall i | 0 <= i <= |s| ensures HeaderGroupAt(p, s, i) == None {
      if i == 0 {
        assert s[4] !in p[0];
      } else {
        OnlyStartAtZero(p, i);
      }
    }
    var at := GroupMatcher(p);
    assert forall i :: 0 <= i <= |s| ==> at(s, i) == None;
  }

  /** The corrected pattern matches the argument at its start. */
  lemma AuthUserGroup()
    ensures HeaderGroupAt(AuthUserPattern, LowerCaseAuthUser, 0) == Some(LowerCaseAuthUser[4..22])
    ensures QuoteFrom(LowerCaseAuthUser, 21) == 22
  {
    var s := LowerCaseAuthUser;
    var p := AuthUserPattern;
    assert LiteralAt(s, "-H '", 0);
    assert NameAt(s, p, 4);
    assert LiteralAt(s, ": ", 19);
    assert QuoteFrom(s, 21) == 22;
  }

  /** With case alternatives, as the User-Agent and Cookie patterns have,
      the same argument yields its value. */
  lemma AuthUserFound()
    ensures ExtractHeader(LowerCaseAuthUser, AuthUserPattern) == Some("0")
  {
    var s := LowerCaseAuthUser;
    var p := AuthUserPattern;
    AuthUserGroup();
    var g := s[4..22];
    FirstMatchIs(s, GroupMatcher(p), 0, 0);
    assert FirstMatch(s, GroupMatcher(p), 0) == Some(g);
    PatternsHaveNoColon();
    GroupValue(p, s, 0);
    assert AfterFirst(g, ": ") == Some(s[21..22]);
    assert s[21..22] == [s[21]] && s[21] == '0';
  }
}
