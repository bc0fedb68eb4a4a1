/** `_ensure_browser_json` of the exporter: the stored request headers are
    refused without a `SAPISID` cookie, given an origin when they have none,
    and every value is made a string; the file is rewritten only when
    something changed. Reading and writing the file are left to the caller:
    the file comes in as a `BrowserFile`, and `rewritten` says whether it
    goes back out. */
module BrowserJson {
  import opened Text

  /** A JSON value as `json.load` returns it: `null`, a string, or any other
      value, kept as the text `str(v)` gives it and its truthiness. */
  datatype Json = JNull | JStr(text: string) | JOther(repr: string, truthy: bool)

  /** What opening and parsing `browser.json` gives. */
  datatype BrowserFile = Missing | Unparsable | Loaded(headers: map<string, Json>)

  /** The three ways the function ends the program. */
  datatype LoadError = NoBrowserFile | BadBrowserFile | NoSapisid

  /** The headers after the check, and whether the file is written back. */
  datatype Checked = Checked(headers: map<string, Json>, rewritten: bool)

  const MusicOrigin: string := "https://music.youtube.com"

  /** Python truthiness of a JSON value. */
  predicate Truthy(v: Json)
  {
    match v
    case JNull => false
    case JStr(s) => s != ""
    case JOther(_, t) => t
  }

  /** `headers.get(key)` is truthy. */
  predicate Present(h: map<string, Json>, key: string)
  {
    key in h && Truthy(h[key])
  }

  /** `headers.get('Cookie') or headers.get('cookie') or ''`. */
  function CookieValue(h: map<string, Json>): Json
  {
    if Present(h, "Cookie") then h["Cookie"]
    else if Present(h, "cookie") then h["cookie"]
    else JStr("")
  }

  /** `'SAPISID' in cookie`, for a cookie that is a string. */
  predicate HasSapisid(h: map<string, Json>)
  {
    CookieValue(h).JStr? && Contains(CookieValue(h).text, "SAPISID")
  }

  /** Neither `Origin` nor `origin` is truthy. */
  predicate NeedsOrigin(h: map<string, Json>)
  {
    !Present(h, "Origin") && !Present(h, "origin")
  }

  /** The headers after the origin step. */
  function WithOrigin(h: map<string, Json>): map<string, Json>
  {
    if NeedsOrigin(h) then h["Origin" := JStr(MusicOrigin)]["origin" := JStr(MusicOrigin)] else h
  }

  /** The string a value becomes: `''` for `null`, `str(v)` for a non-string. */
  function AsText(v: Json): string
  {
    match v
    case JNull => ""
    case JStr(s) => s
    case JOther(r, _) => r
  }

  /** `str(v)` of a JSON value that is not a string is never empty. */
  predicate TextsNonEmpty(h: map<string, Json>)
  {
    forall k :: k in h && h[k].JOther? ==> h[k].repr != ""
  }

  /** Every value is a string. */
  predicate AllText(h: map<string, Json>)
  {
    forall k :: k in h ==> h[k].JStr?
  }

  /** The headers after the conversion loop. */
  function Textual(h: map<string, Json>): map<string, Json>
  {
    map k | k in h :: JStr(AsText(h[k]))
  }

  /** What `_ensure_browser_json` does with the file it finds. */
  function EnsureSpec(file: BrowserFile): Result<Checked, LoadError>
  {
    match file
    case Missing => Err(NoBrowserFile)
    case Unparsable => Err(BadBrowserFile)
    case Loaded(h) =>
      if !HasSapisid(h) then Err(NoSapisid)
      else Ok(Checked(Textual(WithOrigin(h)), NeedsOrigin(h) || !AllText(WithOrigin(h))))
  }

  /** `_ensure_browser_json`, with the conversion loop over the keys. */
  method EnsureBrowserJson(file: BrowserFile) returns (r: Result<Checked, LoadError>)
    ensures r == EnsureSpec(file)
  {
    if file.Missing? {
      return Err(NoBrowserFile);
    }
    if file.Unparsable? {
      return Err(BadBrowserFile);
    }
    var headers := file.headers;
    var cookie := CookieValue(headers);
    if !cookie.JStr? || !Contains(cookie.text, "SAPISID") {
      return Err(NoSapisid);
    }
    var changed := false;
    if !Present(headers, "Origin") && !Present(headers, "origin") {
      headers := headers["Origin" := JStr(MusicOrigin)]["origin" := JStr(MusicOrigin)];
      changed := true;
    }
    ghost var before := headers;
    assert before == WithOrigin(file.headers);
    var pending := headers.Keys;
    while pending != {}
      invariant pending <= before.Keys && headers.Keys == before.Keys
      invariant forall k :: k in headers ==> headers[k] == if k in pending then before[k] else JStr(AsText(before[k]))
      invariant changed == (NeedsOrigin(file.headers) || exists k :: k in before && k !in pending && !before[k].JStr?)
      decreases pending
    {
      var k :| k in pending;
      var v := headers[k];
      if v.JNull? {
        headers := headers[k := JStr("")];
        changed := true;
      } else if !v.JStr? {
        headers := headers[k := JStr(v.repr)];
        changed := true;
      }
      pending := pending - {k};
    }
    assert headers == Textual(before);
    return Ok(Checked(headers, changed));
  }

  /** The file is accepted exactly when it exists, parses, and its cookie is
      a string holding `SAPISID`. */
  lemma EnsureAccepts(file: BrowserFile)
    ensures EnsureSpec(file).Ok? <==> file.Loaded? && HasSapisid(file.headers)
    ensures file.Missing? ==> EnsureSpec(file) == Err(NoBrowserFile)
    ensures file.Unparsable? ==> EnsureSpec(file) == Err(BadBrowserFile)
    ensures file.Loaded? && !HasSapisid(file.headers) ==> EnsureSpec(file) == Err(NoSapisid)
  {
  }

  /** What an accepted file becomes: the same keys plus both origins when
      neither was truthy, every value a string, strings kept, `null` made
      empty, other values made their text; the file is rewritten exactly
      when an origin was added or some value was not a string. */
  lemma EnsureResult(h: map<string, Json>)
    requires HasSapisid(h)
    ensures var c := EnsureSpec(Loaded(h)).value;
      && c.headers.Keys == h.Keys + (if NeedsOrigin(h) then {"Origin", "origin"} else {})
      && AllText(c.headers)
      && (NeedsOrigin(h) ==> c.headers["Origin"] == JStr(MusicOrigin) && c.headers["origin"] == JStr(MusicOrigin))
      && (forall k :: k in h && !(NeedsOrigin(h) && (k == "Origin" || k == "origin")) ==> c.headers[k] == JStr(AsText(h[k])))
      && (forall k :: k in h && h[k].JStr? && !(NeedsOrigin(h) && (k == "Origin" || k == "origin")) ==> c.headers[k] == h[k])
      && (c.rewritten <==> NeedsOrigin(h) || !AllText(h))
  {
  }

  /** Checking an accepted file a second time changes nothing and does not
      rewrite it, unless its `Cookie` key held a non-string value (see
      `NumericCookieRefused`). */
  lemma EnsureIdempotent(h: map<string, Json>)
    requires HasSapisid(h)
    requires "Cookie" in h ==> !h["Cookie"].JOther?
    requires TextsNonEmpty(h)
    ensures var c := EnsureSpec(Loaded(h)).value;
      EnsureSpec(Loaded(c.headers)) == Ok(Checked(c.headers, false))
  {
    var c := EnsureSpec(Loaded(h)).value;
    var w := WithOrigin(h);
    assert c.headers == Textual(w);
    assert CookieValue(c.headers) == CookieValue(h) by {
      assert "Cookie" in w ==> w["Cookie"] == h["Cookie"];
      assert "cookie" in w ==> w["cookie"] == h["cookie"];
    }
    assert !NeedsOrigin(c.headers) by {
      if NeedsOrigin(h) {
        assert c.headers["Origin"] == JStr(MusicOrigin);
      } else if Present(h, "Origin") {
        assert w["Origin"] == h["Origin"];
        assert Present(c.headers, "Origin");
      } else {
        assert w["origin"] == h["origin"];
        assert Present(c.headers, "origin");
      }
    }
    assert Textual(c.headers) == c.headers;
  }

  /** A falsy non-string `Cookie` (the number 0) beside a lower-case
      `cookie` passes the first check, is turned into the text "0", and the
      rewritten file is then refused. */
  lemma NumericCookieRefused()
    ensures var h := map["Cookie" := JOther("0", false), "cookie" := JStr("SAPISID=1")];
      && EnsureSpec(Loaded(h)).Ok?
      && EnsureSpec(Loaded(EnsureSpec(Loaded(h)).value.headers)) == Err(NoSapisid)
  {
    var h := map["Cookie" := JOther("0", false), "cookie" := JStr("SAPISID=1")];
    assert OccursAt("SAPISID=1", "SAPISID", 0);
    var c := EnsureSpec(Loaded(h)).value;
    assert c.headers["Cookie"] == JStr("0");
    AbsentChar("0", "SAPISID", 0);
  }

  /** The headers a setup run saves, as `json.load` reads them back. */
  function Stored(h: map<string, string>): (r: map<string, Json>)
    ensures r.Keys == h.Keys && AllText(r)
  {
    map k | k in h :: JStr(h[k])
  }

  /** Headers saved by the setup (a `Cookie` holding `SAPISID`) pass the
      check; they are rewritten only to add the origin, which happens
      exactly when they carry no non-empty `Origin` or `origin`. */
  lemma SetupOutputAccepted(h: map<string, string>)
    requires "Cookie" in h && Contains(h["Cookie"], "SAPISID")
    ensures EnsureSpec(Loaded(Stored(h))).Ok?
    ensures var c := EnsureSpec(Loaded(Stored(h))).value;
      c.rewritten <==> !("Origin" in h && h["Origin"] != "") && !("origin" in h && h["origin"] != "")
  {
    var s := Stored(h);
    assert |h["Cookie"]| >= 7;
    assert Present(s, "Cookie") && CookieValue(s) == JStr(h["Cookie"]);
    if !NeedsOrigin(s) {
      assert WithOrigin(s) == s;
    }
  }
}
