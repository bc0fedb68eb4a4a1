/** `_sanitize_filename` of the exporter: a playlist title made into a file
    name by stripping it, deleting the characters a file system refuses,
    collapsing whitespace runs and cutting it to 240 characters. */
module FileNames {
  import opened Text

  const MaxLength: nat := 240
  const Fallback: string := "playlist"

  /** The characters of the class `[<>:"/\\|?*\x00-\x1f]`. */
  predicate Forbidden(c: char)
  {
    c == '<' || c == '>' || c == ':' || c == '"' || c == '/' || c == '\\'
    || c == '|' || c == '?' || c == '*' || c < '\U{20}'
  }

  predicate NoForbidden(s: string)
  {
    forall k :: 0 <= k < |s| ==> !Forbidden(s[k])
  }

  /** No two neighbouring characters are both whitespace. */
  predicate NoDoubleSpace(s: string)
  {
    forall i, j :: 0 <= i < |s| && 0 <= j < |s| && j == i + 1 ==> !(IsSpace(s[i]) && IsSpace(s[j]))
  }

  /** Every whitespace character is a plain space. */
  predicate PlainSpaces(s: string)
  {
    forall k :: 0 <= k < |s| ==> IsSpace(s[k]) ==> s[k] == ' '
  }

  /** The deletion of every forbidden character. */
  function RemoveForbidden(s: string): (r: string)
    ensures |r| <= |s| && NoForbidden(r)
    ensures forall k :: 0 <= k < |r| ==> r[k] in s
    ensures NoForbidden(s) ==> r == s
  {
    if s == [] then []
    else
      var rest := RemoveForbidden(s[1..]);
      assert forall k :: 0 <= k < |rest| ==> rest[k] in s by {
        forall k | 0 <= k < |rest| ensures rest[k] in s {
          var j :| 0 <= j < |s[1..]| && s[1..][j] == rest[k];
          assert s[j + 1] == rest[k];
        }
      }
      if Forbidden(s[0]) then rest else [s[0]] + rest
  }

  lemma {:induction false} RemoveForbiddenSplits(a: string, b: string)
    ensures RemoveForbidden(a + b) == RemoveForbidden(a) + RemoveForbidden(b)
    decreases |a|
  {
    if a != [] {
      assert (a + b)[0] == a[0] && (a + b)[1..] == a[1..] + b;
      RemoveForbiddenSplits(a[1..], b);
      var head := if Forbidden(a[0]) then [] else [a[0]];
      assert head + (RemoveForbidden(a[1..]) + RemoveForbidden(b))
             == (head + RemoveForbidden(a[1..])) + RemoveForbidden(b);
    } else {
      assert a + b == b;
    }
  }

  /** Each character stays where it was exactly when it is allowed: the
      result is the input's allowed characters in order, each as often as
      it occurs. */
  lemma RemoveForbiddenInPlace(a: string, c: char, b: string)
    ensures RemoveForbidden(a + [c] + b)
            == RemoveForbidden(a) + (if Forbidden(c) then [] else [c]) + RemoveForbidden(b)
  {
    RemoveForbiddenSplits(a + [c], b);
    RemoveForbiddenSplits(a, [c]);
    assert [c][1..] == [];
  }

  /** `re.sub(r'\s+', ' ', s)`: each run of whitespace becomes one space. */
  function CollapseSpaces(s: string): (r: string)
    ensures |r| <= |s|
    ensures r == [] <==> s == []
    ensures r != [] ==> r[0] == (if IsSpace(s[0]) then ' ' else s[0])
    decreases |s|
  {
    if s == [] then []
    else if IsSpace(s[0]) then [' '] + CollapseSpaces(TrimStart(s[1..]))
    else [s[0]] + CollapseSpaces(s[1..])
  }

  /** A whitespace run is stripped entirely, up to the first other character. */
  lemma {:induction false} TrimStartRun(w: string, b: string)
    requires AllSpace(w)
    requires b == [] || !IsSpace(b[0])
    ensures TrimStart(w + b) == b
    decreases |w|
  {
    if w == [] {
      assert w + b == b;
    } else {
      assert (w + b)[0] == w[0] && (w + b)[1..] == w[1..] + b;
      TrimStartRun(w[1..], b);
    }
  }

  /** Stripping a text that ends in another character never reaches what follows it. */
  lemma {:induction false} TrimStartAppend(s: string, x: string)
    requires s != [] && !IsSpace(s[|s| - 1])
    ensures TrimStart(s + x) == TrimStart(s) + x
    decreases |s|
  {
    assert (s + x)[0] == s[0];
    if IsSpace(s[0]) {
      assert (s + x)[1..] == s[1..] + x;
      TrimStartAppend(s[1..], x);
    }
  }

  lemma {:induction false} TrimStartNonEmpty(s: string)
    requires s != [] && !IsSpace(s[|s| - 1])
    ensures TrimStart(s) != [] && !IsSpace(TrimStart(s)[|TrimStart(s)| - 1])
    decreases |s|
  {
    if IsSpace(s[0]) {
      assert s[1..][|s| - 2] == s[|s| - 1];
      TrimStartNonEmpty(s[1..]);
    }
  }

  lemma Associative(p: string, q: string, r: string)
    ensures p + (q + r) == (p + q) + r
  {
  }

  /** One step of the collapse on a text that starts with `a`. */
  lemma CollapseHead(a: string, x: string)
    requires a != []
    ensures CollapseSpaces(a + x)
            == if IsSpace(a[0]) then [' '] + CollapseSpaces(TrimStart(a[1..] + x))
               else [a[0]] + CollapseSpaces(a[1..] + x)
  {
    assert (a + x)[0] == a[0] && (a + x)[1..] == a[1..] + x;
  }

  /** No run of whitespace crosses the end of a text that ends in another
      character, so the two sides are collapsed on their own. */
  lemma {:induction false} CollapseSplits(a: string, x: string)
    requires a == [] || !IsSpace(a[|a| - 1])
    ensures CollapseSpaces(a + x) == CollapseSpaces(a) + CollapseSpaces(x)
    decreases |a|
  {
    if a == [] {
      assert a + x == x;
    } else if IsSpace(a[0]) {
      var t := TrimStart(a[1..]);
      TrimStartNonEmpty(a[1..]);
      CollapseHead(a, x);
      TrimStartAppend(a[1..], x);
      CollapseSplits(t, x);
      Associative([' '], CollapseSpaces(t), CollapseSpaces(x));
    } else {
      CollapseHead(a, x);
      CollapseSplits(a[1..], x);
      Associative([a[0]], CollapseSpaces(a[1..]), CollapseSpaces(x));
    }
  }

  /** A leading whitespace run becomes one space. */
  lemma CollapseLeadingRun(w: string, b: string)
    requires w != [] && AllSpace(w)
    requires b == [] || !IsSpace(b[0])
    ensures CollapseSpaces(w + b) == " " + CollapseSpaces(b)
  {
    var wb := w + b;
    assert wb[0] == w[0] && wb[1..] == w[1..] + b;
    TrimStartRun(w[1..], b);
  }

  /** A whitespace run between two other characters (or an end of the
      text) becomes exactly one space, and the text on either side is
      collapsed on its own. */
  lemma CollapseRun(a: string, w: string, b: string)
    requires w != [] && AllSpace(w)
    requires a == [] || !IsSpace(a[|a| - 1])
    requires b == [] || !IsSpace(b[0])
    ensures CollapseSpaces(a + w + b) == CollapseSpaces(a) + " " + CollapseSpaces(b)
  {
    Associative(a, w, b);
    CollapseSplits(a, w + b);
    CollapseLeadingRun(w, b);
    Associative(CollapseSpaces(a), " ", CollapseSpaces(b));
  }

  /** `s` without its whitespace characters. */
  function NonSpace(s: string): (r: string)
    ensures |r| <= |s|
  {
    if s == [] then [] else (if IsSpace(s[0]) then [] else [s[0]]) + NonSpace(s[1..])
  }

  lemma {:induction false} NonSpaceTrimStart(s: string)
    ensures NonSpace(TrimStart(s)) == NonSpace(s)
    decreases |s|
  {
    if s != [] && IsSpace(s[0]) {
      NonSpaceTrimStart(s[1..]);
    }
  }

  /** Collapsing keeps every other character, in order. */
  lemma {:induction false} CollapseKeepsNonSpace(s: string)
    ensures NonSpace(CollapseSpaces(s)) == NonSpace(s)
    decreases |s|
  {
    if s != [] {
      if IsSpace(s[0]) {
        var t := TrimStart(s[1..]);
        CollapseKeepsNonSpace(t);
        NonSpaceTrimStart(s[1..]);
        assert ([' '] + CollapseSpaces(t))[1..] == CollapseSpaces(t);
      } else {
        CollapseKeepsNonSpace(s[1..]);
        assert ([s[0]] + CollapseSpaces(s[1..]))[1..] == CollapseSpaces(s[1..]);
      }
    }
  }

  /** After collapsing, whitespace comes one plain space at a time. */
  lemma {:induction false} CollapsedSpacesSingle(s: string)
    ensures NoDoubleSpace(CollapseSpaces(s)) && PlainSpaces(CollapseSpaces(s))
    decreases |s|
  {
    if s != [] {
      var t := if IsSpace(s[0]) then TrimStart(s[1..]) else s[1..];
      CollapsedSpacesSingle(t);
      var rest := CollapseSpaces(t);
      var r := CollapseSpaces(s);
      assert r == [r[0]] + rest;
      forall i, j | 0 <= i < |r| && 0 <= j < |r| && j == i + 1
        ensures !(IsSpace(r[i]) && IsSpace(r[j]))
      {
        if i > 0 {
          assert r[i] == rest[i - 1] && r[j] == rest[j - 1];
        } else if IsSpace(s[0]) {
          assert r[j] == rest[0] == t[0];
        }
      }
    }
  }

  /** `name[:240]`. */
  function Cut(s: string): (r: string)
    ensures |r| <= MaxLength && |r| <= |s| && r == s[..|r|]
    ensures |r| == if |s| <= MaxLength then |s| else MaxLength
    ensures |s| <= MaxLength ==> r == s
  {
    if |s| <= MaxLength then s else s[..MaxLength]
  }

  /** `_sanitize_filename(name)`, with `None` for a missing title. */
  function Sanitize(name: Option<string>): (r: string)
    // Never empty, at most 240 characters.
    ensures r != [] && |r| <= MaxLength
    ensures name.None? || name == Some("") ==> r == Fallback
  {
    if name.None? || name.value == "" then Fallback
    else
      var cut := Cut(CollapseSpaces(RemoveForbidden(Strip(name.value))));
      if cut == [] then Fallback else cut
  }

  /** A prefix keeps the three safety properties. */
  lemma PrefixSafe(s: string, n: nat)
    requires n <= |s| && NoForbidden(s) && NoDoubleSpace(s) && PlainSpaces(s)
    ensures NoForbidden(s[..n]) && NoDoubleSpace(s[..n]) && PlainSpaces(s[..n])
  {
    var p := s[..n];
    forall i, j | 0 <= i < |p| && 0 <= j < |p| && j == i + 1 ensures !(IsSpace(p[i]) && IsSpace(p[j])) {
      assert p[i] == s[i] && p[j] == s[j];
    }
  }

  /** Collapsing a text without forbidden characters gives a safe text. */
  lemma CollapseSafe(removed: string)
    requires NoForbidden(removed)
    ensures var c := CollapseSpaces(removed);
      NoForbidden(c) && NoDoubleSpace(c) && PlainSpaces(c)
  {
    var c := CollapseSpaces(removed);
    CollapsedSpacesSingle(removed);
    CollapseFrom(removed);
    forall k | 0 <= k < |c| ensures !Forbidden(c[k]) {
      if c[k] != ' ' {
        assert c[k] in c;
        var j :| 0 <= j < |removed| && removed[j] == c[k];
      }
    }
  }

  /** Cutting keeps the three safety properties. */
  lemma CutSafe(c: string)
    requires NoForbidden(c) && NoDoubleSpace(c) && PlainSpaces(c)
    ensures NoForbidden(Cut(c)) && NoDoubleSpace(Cut(c)) && PlainSpaces(Cut(c))
  {
    PrefixSafe(c, |Cut(c)|);
  }

  lemma FallbackSafe()
    ensures NoForbidden(Fallback) && NoDoubleSpace(Fallback) && PlainSpaces(Fallback)
  {
    assert forall k :: 0 <= k < |Fallback| ==> 'a' <= Fallback[k] <= 'z';
    assert forall k :: 0 <= k < |Fallback| ==> !IsSpace(Fallback[k]);
  }

  /** The file name has none of `<>:"/\|?*` and no control character below
      0x20, and its whitespace comes one plain space at a time. */
  lemma SanitizedIsSafe(name: Option<string>)
    ensures NoForbidden(Sanitize(name))
    ensures NoDoubleSpace(Sanitize(name)) && PlainSpaces(Sanitize(name))
  {
    FallbackSafe();
    if name.Some? && name.value != "" {
      var removed := RemoveForbidden(Strip(name.value));
      CollapseSafe(removed);
      CutSafe(CollapseSpaces(removed));
    }
  }

  /** Every character of `a` is a space or a character of `b`. */
  predicate SpacesOr(a: string, b: string)
  {
    forall c :: c in a ==> c == ' ' || c in b
  }

  lemma StripFrom(s: string)
    ensures SpacesOr(Strip(s), s)
  {
    var x, y := StripSplits(s);
    forall c | c in Strip(s) ensures c in s {
      var i :| 0 <= i < |Strip(s)| && Strip(s)[i] == c;
      assert s[|x| + i] == c;
    }
  }

  /** The characters of a suffix are characters of the whole. */
  lemma SuffixIn(s: string, t: string)
    requires |t| <= |s| && t == s[|s| - |t|..]
    ensures forall c :: c in t ==> c in s
  {
    forall c | c in t ensures c in s {
      var j :| 0 <= j < |t| && t[j] == c;
      assert s[|s| - |t| + j] == c;
    }
  }

  /** Every character kept by the collapse is a space or one of the input's. */
  lemma {:induction false} CollapseFrom(s: string)
    ensures SpacesOr(CollapseSpaces(s), s)
    decreases |s|
  {
    if s != [] {
      SuffixIn(s, s[1..]);
      if IsSpace(s[0]) {
        var t := TrimStart(s[1..]);
        CollapseFrom(t);
        SuffixIn(s[1..], t);
        assert CollapseSpaces(s) == [' '] + CollapseSpaces(t);
      } else {
        CollapseFrom(s[1..]);
        assert CollapseSpaces(s) == [s[0]] + CollapseSpaces(s[1..]);
      }
    }
  }

  /** Apart from the fallback, every character of the file name is a space
      or a character of the title. */
  lemma SanitizedFromName(name: Option<string>)
    ensures Sanitize(name) == Fallback || (name.Some? && SpacesOr(Sanitize(name), name.value))
  {
    if name.Some? && name.value != "" {
      var stripped := Strip(name.value);
      var removed := RemoveForbidden(stripped);
      var c := CollapseSpaces(removed);
      StripFrom(name.value);
      CollapseFrom(removed);
      var r := Sanitize(name);
      if r != Fallback {
        assert r == Cut(c);
        forall ch | ch in r && ch != ' ' ensures ch in name.value {
          var k :| 0 <= k < |r| && r[k] == ch;
          assert c[k] == ch;
          assert ch in removed;
          var j :| 0 <= j < |removed| && removed[j] == ch;
        }
      }
    }
  }

  /** A whitespace-free run collapses to itself, and so does one whose
      whitespace is already single plain spaces. */
  lemma {:induction false} CollapseKeeps(s: string)
    requires NoDoubleSpace(s) && PlainSpaces(s)
    requires s == [] || !IsSpace(s[0])
    ensures CollapseSpaces(s) == s
    decreases |s|
  {
    if s != [] {
      var t := s[1..];
      if t != [] && IsSpace(t[0]) {
        assert t[0] == s[1] == ' ';
        assert |t| == 1 || !IsSpace(t[1]) by {
          if |t| > 1 { assert !(IsSpace(s[1]) && IsSpace(s[2])); }
        }
        if t[1..] != [] {
          NoTrimStart(t[1..]);
          CollapseKeeps(t[1..]);
        }
        assert t == [t[0]] + t[1..];
      } else {
        CollapseKeeps(t);
      }
    }
  }

  /** A name that is already clean comes back unchanged: it has no forbidden
      character, no whitespace at its ends, only single plain spaces and at
      most 240 characters. */
  lemma CleanNameKept(s: string)
    requires s != [] && |s| <= MaxLength
    requires NoForbidden(s) && NoDoubleSpace(s) && PlainSpaces(s)
    requires !IsSpace(s[0]) && !IsSpace(s[|s| - 1])
    ensures Sanitize(Some(s)) == s
  {
    StripUnique([], s, []);
    assert [] + (s + []) == s;
    assert Strip(s) == s;
    assert RemoveForbidden(s) == s;
    CollapseKeeps(s);
    assert Cut(s) == s;
  }

  /** Sanitising a non-empty name whose stages give `collapsed`, short
      and not empty, gives `collapsed`. */
  lemma SanitizeStages(name: string, collapsed: string)
    requires name != [] && CollapseSpaces(RemoveForbidden(Strip(name))) == collapsed
    requires collapsed != [] && |collapsed| <= MaxLength
    ensures Sanitize(Some(name)) == collapsed
  {
  }

  lemma ControlSpaceStages()
    ensures Strip("\U{1} a") == "\U{1} a"
    ensures RemoveForbidden("\U{1} a") == " a"
    ensures CollapseSpaces(" a") == " a"
  {
    var s := "\U{1} a";
    assert !IsSpace(s[0]) && !IsSpace(s[2]);
    NoTrimStart(s);
    NoTrimEnd(s);
    assert RemoveForbidden(s[2..]) == "a";
    assert RemoveForbidden(s[1..]) == " a";
    assert CollapseSpaces("a") == "a";
    NoTrimStart("a");
  }

  /** The file name is not always stripped: a space that follows a deleted
      control character survives. */
  lemma SpaceAfterControl()
    ensures Sanitize(Some("\U{1} a")) == " a"
  {
    ControlSpaceStages();
    SanitizeStages("\U{1} a", " a");
  }

  lemma LeadingSpaceStages()
    ensures Strip(" a") == "a"
    ensures RemoveForbidden("a") == "a"
    ensures CollapseSpaces("a") == "a"
  {
    NoTrimStart("a");
    assert TrimStart(" a") == "a";
    NoTrimEnd("a");
  }

  /** Sanitising that file name again strips the space, so sanitising twice
      can differ from sanitising once. */
  lemma LeadingSpaceStripped()
    ensures Sanitize(Some(" a")) == "a"
  {
    LeadingSpaceStages();
    SanitizeStages(" a", "a");
  }

  lemma InnerRunStrip()
    ensures Strip("a \U{A0}b") == "a \U{A0}b"
  {
    var s := "a \U{A0}b";
    assert !IsSpace(s[0]) && !IsSpace(s[3]);
    NoTrimStart(s);
    NoTrimEnd(s);
  }

  lemma InnerRunClean()
    ensures RemoveForbidden("a \U{A0}b") == "a \U{A0}b"
  {
    var s := "a \U{A0}b";
    assert !Forbidden(s[0]) && !Forbidden(s[1]) && !Forbidden(s[2]) && !Forbidden(s[3]);
  }

  lemma InnerRunCollapse()
    ensures CollapseSpaces("a \U{A0}b") == "a b"
  {
    assert "a \U{A0}b" == "a" + " \U{A0}" + "b";
    CollapseRun("a", " \U{A0}", "b");
  }

  /** A run of a space and a no-break space inside a name becomes one plain space. */
  lemma InnerRunCollapsed()
    ensures Sanitize(Some("a \U{A0}b")) == "a b"
  {
    InnerRunStrip();
    InnerRunClean();
    InnerRunCollapse();
    SanitizeStages("a \U{A0}b", "a b");
  }
}
