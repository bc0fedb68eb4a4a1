/** String helpers shared by the importer and the exporter: Python's whitespace
    predicate, `str.strip`, substring containment, ASCII `str.lower` and
    `str.join`. */
module Text {

  datatype Option<+T> = None | Some(value: T)

  /** A value, or the error a Python function would raise or report instead. */
  datatype Result<+T, +E> = Ok(value: T) | Err(error: E)

  /** The characters for which Python's `str.isspace` holds; the regular
      expression class `\s` matches the same set on `str` patterns. */
  predicate IsSpace(c: char)
  {
    c == ' ' || ('\t' <= c <= '\r') || ('\U{1C}' <= c <= '\U{1F}')
    || c == '\U{85}' || c == '\U{A0}' || c == '\U{1680}'
    || ('\U{2000}' <= c <= '\U{200A}') || c == '\U{2028}' || c == '\U{2029}'
    || c == '\U{202F}' || c == '\U{205F}' || c == '\U{3000}'
  }

  /** Every character of `s` is whitespace. */
  predicate AllSpace(s: string)
  {
    forall k :: 0 <= k < |s| ==> IsSpace(s[k])
  }

  lemma SpaceCons(c: char, t: string)
    requires IsSpace(c) && AllSpace(t)
    ensures AllSpace([c] + t)
  {
    forall k | 0 <= k < |t| + 1 ensures IsSpace(([c] + t)[k]) {
      if k > 0 {
        assert ([c] + t)[k] == t[k - 1];
      }
    }
  }

  lemma SpaceSnoc(t: string, c: char)
    requires IsSpace(c) && AllSpace(t)
    ensures AllSpace(t + [c])
  {
    forall k | 0 <= k < |t| + 1 ensures IsSpace((t + [c])[k]) {
      if k < |t| {
        assert (t + [c])[k] == t[k];
      }
    }
  }

  /** `s` with its leading whitespace removed. */
  function TrimStart(s: string): (r: string)
    ensures |r| <= |s| && r == s[|s| - |r|..]
    ensures r == [] || !IsSpace(r[0])
    ensures AllSpace(s[..|s| - |r|])
  {
    if s == [] || !IsSpace(s[0]) then s
    else
      var r := TrimStart(s[1..]);
      SpaceCons(s[0], s[1..][..|s| - 1 - |r|]);
      assert s[..|s| - |r|] == [s[0]] + s[1..][..|s| - 1 - |r|];
      r
  }

  /** `s` with its trailing whitespace removed. */
  function TrimEnd(s: string): (r: string)
    ensures |r| <= |s| && r == s[..|r|]
    ensures r == [] || !IsSpace(r[|r| - 1])
    ensures AllSpace(s[|r|..])
  {
    if s == [] || !IsSpace(s[|s| - 1]) then s
    else
      var r := TrimEnd(s[..|s| - 1]);
      SpaceSnoc(s[..|s| - 1][|r|..], s[|s| - 1]);
      assert s[|r|..] == s[..|s| - 1][|r|..] + [s[|s| - 1]];
      r
  }

  /** Python's `s.strip()`. */
  function Strip(s: string): (r: string)
    ensures |r| <= |s|
    ensures r == [] || (!IsSpace(r[0]) && !IsSpace(r[|r| - 1]))
    ensures r == [] <==> AllSpace(s)
  {
    var t := TrimStart(s);
    assert t == [] ==> s[..|s|] == s;
    assert t != [] ==> t[..1] == t[..|t|][..1];
    TrimEnd(t)
  }

  lemma {:induction false} TrimStartOfSpaces(a: string, b: string)
    requires AllSpace(a)
    ensures TrimStart(a + b) == TrimStart(b)
    decreases |a|
  {
    if a == [] {
      assert a + b == b;
    } else {
      assert (a + b)[0] == a[0];
      assert (a + b)[1..] == a[1..] + b;
      TrimStartOfSpaces(a[1..], b);
    }
  }

  lemma {:induction false} TrimEndOfSpaces(a: string, b: string)
    requires AllSpace(b)
    ensures TrimEnd(a + b) == TrimEnd(a)
    decreases |b|
  {
    if b == [] {
      assert a + b == a;
    } else {
      assert (a + b)[|a + b| - 1] == b[|b| - 1];
      assert (a + b)[..|a + b| - 1] == a + b[..|b| - 1];
      TrimEndOfSpaces(a, b[..|b| - 1]);
    }
  }

  lemma NoTrimStart(s: string)
    requires s != [] && !IsSpace(s[0])
    ensures TrimStart(s) == s
  {
  }

  lemma NoTrimEnd(s: string)
    requires s != [] && !IsSpace(s[|s| - 1])
    ensures TrimEnd(s) == s
  {
  }

  /** Whitespace alone trims away to nothing. */
  lemma AllSpaceTrims(y: string)
    requires AllSpace(y)
    ensures TrimStart(y) == []
  {
    TrimStartOfSpaces(y, []);
    assert y + [] == y;
  }

  /** `strip` keeps exactly the part between the leading and the trailing
      whitespace: whitespace around a text that neither starts nor ends with
      whitespace is all it removes. */
  lemma StripUnique(x: string, m: string, y: string)
    requires AllSpace(x) && AllSpace(y)
    requires m == [] || (!IsSpace(m[0]) && !IsSpace(m[|m| - 1]))
    ensures Strip(x + (m + y)) == m
  {
    TrimStartOfSpaces(x, m + y);
    if m == [] {
      assert m + y == y;
      AllSpaceTrims(y);
    } else {
      assert (m + y)[0] == m[0];
      NoTrimStart(m + y);
      TrimEndOfSpaces(m, y);
      NoTrimEnd(m);
    }
  }

  lemma SpacesJoin(x: string, y: string)
    requires AllSpace(x) && AllSpace(y)
    ensures AllSpace(x + y)
  {
  }

  lemma Halves(s: string, k: nat)
    requires k <= |s|
    ensures s == s[..k] + s[k..]
  {
  }

  /** `s` is what `strip` leaves of it, plus whitespace on either side. */
  lemma StripSplits(s: string) returns (x: string, y: string)
    ensures AllSpace(x) && AllSpace(y) && s == x + (Strip(s) + y)
  {
    var t := TrimStart(s);
    var m := TrimEnd(t);
    assert Strip(s) == m;
    x := s[..|s| - |t|];
    y := t[|m|..];
    Halves(s, |s| - |t|);
    Halves(t, |m|);
    assert s == x + (m + y);
  }

  /** `needle` occurs in `hay` starting at position `i`. */
  predicate OccursAt(hay: string, needle: string, i: int)
  {
    0 <= i && i + |needle| <= |hay| && hay[i..i + |needle|] == needle
  }

  /** `lit` stands in `s` at position `i`. */
  predicate LiteralAt(s: string, lit: string, i: nat)
  {
    i + |lit| <= |s| && s[i..i + |lit|] == lit
  }

  /** Python's `needle in hay` on strings. */
  predicate Contains(hay: string, needle: string)
  {
    exists i :: 0 <= i <= |hay| - |needle| && OccursAt(hay, needle, i)
  }

  /** `needle` is not in `hay` when one of its characters appears nowhere in `hay`. */
  lemma AbsentChar(hay: string, needle: string, k: nat)
    requires k < |needle| && forall i :: 0 <= i < |hay| ==> hay[i] != needle[k]
    ensures !Contains(hay, needle)
  {
    forall i ensures !OccursAt(hay, needle, i) {
      if 0 <= i && i + |needle| <= |hay| {
        assert hay[i..i + |needle|][k] == hay[i + k];
      }
    }
  }

  /** ASCII letters are lowered; every other character is kept. Python's
      `str.lower` also lowers non-ASCII letters; see the README. */
  function LowerChar(c: char): char
  {
    if 'A' <= c <= 'Z' then (c as int + 32) as char else c
  }

  function Lower(s: string): (r: string)
    ensures |r| == |s|
    ensures forall k :: 0 <= k < |s| ==> r[k] == LowerChar(s[k])
  {
    if s == [] then [] else [LowerChar(s[0])] + Lower(s[1..])
  }

  /** Python's `sep.join(parts)`. */
  function Join(parts: seq<string>, sep: string): (r: string)
    ensures parts == [] ==> r == []
    ensures |parts| == 1 ==> r == parts[0]
  {
    if parts == [] then []
    else if |parts| == 1 then parts[0]
    else parts[0] + sep + Join(parts[1..], sep)
  }

  /** The decimal digits of `n`, as Python's `str(n)` writes them. */
  function Decimal(n: nat): (r: string)
    ensures 1 <= |r|
    ensures forall k :: 0 <= k < |r| ==> '0' <= r[k] <= '9'
    ensures |r| > 1 ==> r[0] != '0'
  {
    if n < 10 then [('0' as int + n) as char]
    else Decimal(n / 10) + [('0' as int + n % 10) as char]
  }

  /** `re.search`: the match found at the leftmost start position `i >= k`,
      where `at(s, i)` is what the pattern captures when it matches at `i`. */
  function FirstMatch(s: string, at: (string, nat) -> Option<string>, k: nat): (r: Option<string>)
    ensures r.Some? ==> exists i :: k <= i <= |s| && at(s, i) == r
                                   && forall j :: k <= j < i ==> at(s, j) == None
    ensures r.None? ==> forall i :: k <= i <= |s| ==> at(s, i) == None
    decreases |s| + 1 - k
  {
    if k > |s| then None
    else if at(s, k).Some? then at(s, k)
    else FirstMatch(s, at, k + 1)
  }

  /** The leftmost match is the one at `i` when nothing matches between `k` and `i`. */
  lemma {:induction false} FirstMatchIs(s: string, at: (string, nat) -> Option<string>, k: nat, i: nat)
    requires k <= i <= |s| && at(s, i).Some?
    requires forall j :: k <= j < i ==> at(s, j) == None
    ensures FirstMatch(s, at, k) == at(s, i)
    decreases i - k
  {
    if k < i {
      assert at(s, k) == None;
      FirstMatchIs(s, at, k + 1, i);
    }
  }
}
