/** A section header that is not closed is not skipped. This says exactly when that shows: on the lines behind it. */
module IniHeaders {
  import opened Options
  import opened IniFormat
  import opened IniText
  import opened IniParse
  import opened IniPrint
  import F = IniFind

  /** On the lines from p on, a key with a value that can be read comes before any header, closed or not, and before
      the end. Blank lines, comments, lines without '=' and lines that start with '=' do not count. */
  predicate KeyFollows(f: Format, b: string, p: int)
    requires Ended(b) && 0 <= p < |b|
    decreases |b| - p
  {
    var q := Scan(b, p, NotSpace);
    if b[q] == NUL || b[q] == '[' then false
    else if IsComment(b[q]) then KeyFollows(f, b, Scan(b, q, LineEnd))
    else
      var e := Scan(b, q, Equals);
      if b[e] == '=' && e > q then Value(f, b, e).Some?
      else KeyFollows(f, b, Scan(b, e, LineEnd))
  }

  /** The '[' at q is not closed on its line: the name would start at n, and the line ends at e. */
  predicate OpenHeader(b: string, q: int, n: int, e: int)
    requires Ended(b) && 0 <= q < |b|
  {
    b[q] == '[' && n == Scan(b, q + 1, NotSpace) && e == Scan(b, n, Bracket) && b[e] != ']'
  }

  // ------------------------------------------------------------------ lines

  lemma {:induction false} ScanTo(b: string, p: int, u: Until, q: int)
    requires Ended(b) && 0 <= p < |b| && p <= q <= Scan(b, p, u)
    ensures Scan(b, q, u) == Scan(b, p, u)
    decreases q - p
  {
    if p < q {
      ScanTo(b, p + 1, u, q);
    }
  }

  lemma FollowsFrom(f: Format, b: string, p: int, q: int)
    requires Ended(b) && 0 <= p < |b| && p <= q <= Scan(b, p, NotSpace)
    ensures KeyFollows(f, b, q) == KeyFollows(f, b, p)
  {
    ScanTo(b, p, NotSpace, q);
  }

  lemma {:induction false} SkipBlankScans(b: string, p: int, n: int)
    requires Ended(b) && 0 <= p < |b| && n >= 0
    ensures Scan(b, p, NotSpace) == SkipBlank(b, p, n).1
    decreases |b| - p
  {
    if IsSpace(b[p]) {
      if IsNewLineChar(b[p]) {
        var q := AfterNewLine(b, p);
        SkipBlankScans(b, q, n + 1);
        assert Scan(b, p, NotSpace) == Scan(b, p + 1, NotSpace) == Scan(b, q, NotSpace);
      } else {
        SkipBlankScans(b, p + 1, n);
      }
    }
  }

  lemma NewLineScans(b: string, e: int)
    requires Ended(b) && 0 <= e < |b| && IsNewLineChar(b[e])
    ensures AfterNewLine(b, e) <= Scan(b, e, NotSpace)
  {
    SkipBlankScans(b, e, 0);
  }

  /** A comment block is as many lines. */
  lemma {:induction false} CommentLines(f: Format, b: string, q: int)
    requires Ended(b) && 0 <= q < |b| && IsComment(b[q])
    ensures KeyFollows(f, b, Comments(b, q, true).1) == KeyFollows(f, b, Scan(b, q, LineEnd))
    decreases |b| - q
  {
    var e := Scan(b, q, LineEnd);
    if b[e] != NUL {
      var next := AfterNewLine(b, e);
      NewLineScans(b, e);
      FollowsFrom(f, b, e, next);
      if IsComment(b[next]) {
        CommentLines(f, b, next);
      } else {
        var s := SkipBlank(b, next, 0).1;
        SkipBlankScans(b, next, 0);
        FollowsFrom(f, b, next, s);
        if IsComment(b[s]) {
          assert Scan(b, s, NotSpace) == s;
          CommentLines(f, b, s);
        }
      }
    }
  }

  /** Whether a key follows does not change while nothing is found. */
  lemma FollowsOn(f: Format, b: string, q: int, s: SectionAt, comment: Option<string>)
    requires Ended(b) && 0 <= q < |b| && (s.Raw? ==> 0 <= s.at <= q) && b[q] != '['
    requires F.GoesOnAt(b, q, s, comment).Some?
    ensures var r := F.GoesOnAt(b, q, s, comment).value; q < r.0 < |b| && KeyFollows(f, b, r.0) == KeyFollows(f, b, q)
  {
    assert Scan(b, q, NotSpace) == q;
    if IsComment(b[q]) {
      CommentLines(f, b, q);
    } else {
      var e := Scan(b, q, Equals);
      if b[e] != '=' {
        assert Scan(b, e, LineEnd) == e;
      }
    }
  }

  // ------------------------------------------------------------------ what hangs on the section pointer

  predicate SameButSection(r: Found, r': Found) {
    if r.KeyFound? then r'.KeyFound? && r' == r.(section := r'.section) else r' == r
  }

  /** Only the section of a found key depends on where the section pointer points. */
  lemma {:induction false} PointerMatters(f: Format, b: string, p: int, s: SectionAt, s': SectionAt,
                                          comment: Option<string>)
    requires Ended(b) && 0 <= p < |b| && (s.Raw? ==> 0 <= s.at <= p) && (s'.Raw? ==> 0 <= s'.at <= p)
    ensures SameButSection(NextEntry(f, b, p, s, comment), NextEntry(f, b, p, s', comment))
    decreases |b| - p
  {
    var q := Scan(b, p, NotSpace);
    F.SkipsSpace(f, b, p, s, comment);
    F.SkipsSpace(f, b, p, s', comment);
    var r, r' := F.GoesOnAt(b, q, s, comment), F.GoesOnAt(b, q, s', comment);
    if r.None? {
      StopsAlike(f, b, q, s, s', comment);
    } else {
      F.GoesOn(f, b, q, s, comment);
      F.GoesOn(f, b, q, s', comment);
      PointerMatters(f, b, r.value.0, r.value.1, r'.value.1, r.value.2);
    }
  }

  lemma StopsAlike(f: Format, b: string, q: int, s: SectionAt, s': SectionAt, comment: Option<string>)
    requires Ended(b) && 0 <= q < |b| && (s.Raw? ==> 0 <= s.at <= q) && (s'.Raw? ==> 0 <= s'.at <= q)
    requires !IsSpace(b[q]) && F.GoesOnAt(b, q, s, comment).None?
    ensures SameButSection(NextEntry(f, b, q, s, comment), NextEntry(f, b, q, s', comment))
  {
    if b[q] != NUL && b[q] != '[' {
      F.AtKey(f, b, q, s, comment, Scan(b, q, Equals));
      F.AtKey(f, b, q, s', comment, Scan(b, q, Equals));
    }
  }

  /** The string at the section pointer has a newline, or will have one as soon as something is found. */
  ghost predicate OverLine(b: string, p: int, s: SectionAt)
    requires 0 <= p < |b| && (s.Raw? ==> 0 <= s.at <= p)
  {
    match s
    case Named(name) => HasNewLine(name)
    case Raw(at) => HasNewLine(b[at..p]) || IsNewLineChar(b[p]) || b[p] == NUL
  }

  lemma StillOver(b: string, at: int, p: int, q: int, text: string)
    requires 0 <= at <= p < q <= |b| && (HasNewLine(b[at..p]) || IsNewLineChar(b[p]))
    ensures HasNewLine(b[at..q]) && HasNewLine(b[at..q] + text)
  {
    if IsNewLineChar(b[p]) {
      assert b[at..q][p - at] == b[p] && (b[at..q] + text)[p - at] == b[p];
    } else {
      var i :| 0 <= i < p - at && IsNewLineChar(b[at..p][i]);
      assert b[at..q][i] == b[at..p][i] && (b[at..q] + text)[i] == b[at..p][i];
    }
  }

  lemma OverSettles(b: string, p: int, q: int, s: SectionAt, text: string)
    requires Ended(b) && 0 <= p < |b| && q == Scan(b, p, NotSpace) && b[q] != NUL && (s.Raw? ==> 0 <= s.at <= p)
    requires OverLine(b, p, s)
    ensures OverLine(b, q, s) && forall end :: q <= end <= |b| ==> HasNewLine(Settled(b, s, end, text))
  {
    if s.Raw? {
      if p < q { StillOver(b, s.at, p, q, []); }
      forall end | q <= end <= |b| ensures HasNewLine(b[s.at..end] + text) {
        if p < end { StillOver(b, s.at, p, end, text); }
        assert p == end ==> b[s.at..end] == b[s.at..p];
        if p == end {
          var i :| 0 <= i < p - s.at && IsNewLineChar(b[s.at..p][i]);
          assert (b[s.at..end] + text)[i] == b[s.at..p][i];
        }
      }
    }
  }

  lemma OverGoesOn(b: string, p: int, q: int, s: SectionAt, comment: Option<string>)
    requires Ended(b) && 0 <= p < |b| && q == Scan(b, p, NotSpace) && (s.Raw? ==> 0 <= s.at <= p) && OverLine(b, p, s)
    requires F.GoesOnAt(b, q, s, comment).Some?
    ensures var r := F.GoesOnAt(b, q, s, comment).value;
      q < r.0 < |b| && (r.1.Raw? ==> 0 <= r.1.at <= r.0) && OverLine(b, r.0, r.1)
  {
    var r := F.GoesOnAt(b, q, s, comment).value;
    if IsComment(b[q]) {
      OverSettles(b, p, q, s, Comments(b, q, true).0);
    } else if b[q] != '[' {
      OverSettles(b, p, q, s, []);
      if s.Raw? { StillOver(b, s.at, q, r.0, []); }
    }
  }

  lemma {:induction false} RunsOver(f: Format, b: string, p: int, s: SectionAt, comment: Option<string>)
    requires Ended(b) && 0 <= p < |b| && (s.Raw? ==> 0 <= s.at <= p) && OverLine(b, p, s)
    ensures var r := NextEntry(f, b, p, s, comment); r.KeyFound? ==> HasNewLine(r.section)
    decreases |b| - p
  {
    var q := Scan(b, p, NotSpace);
    F.SkipsSpace(f, b, p, s, comment);
    var r := F.GoesOnAt(b, q, s, comment);
    if r.Some? {
      OverGoesOn(b, p, q, s, comment);
      F.GoesOn(f, b, q, s, comment);
      RunsOver(f, b, r.value.0, r.value.1, r.value.2);
    } else if b[q] != NUL && b[q] != '[' {
      OverSettles(b, p, q, s, []);
      F.AtKey(f, b, q, s, comment, Scan(b, q, Equals));
    }
  }

  // ------------------------------------------------------------------ exactly when

  /** The section of a found key is the one the search began in exactly if the key follows with no header in between
      that was left open; otherwise it has a newline in it. */
  lemma {:induction false} SectionOfKey(f: Format, b: string, p: int, name: string, comment: Option<string>)
    requires Ended(b) && 0 <= p < |b|
    ensures var r := NextEntry(f, b, p, Named(name), comment);
      && (KeyFollows(f, b, p) ==> r.KeyFound? && r.section == name)
      && (!KeyFollows(f, b, p) && r.KeyFound? ==> HasNewLine(r.section))
    decreases |b| - p
  {
    var q := Scan(b, p, NotSpace);
    F.SkipsSpace(f, b, p, Named(name), comment);
    FollowsFrom(f, b, p, q);
    var r := F.GoesOnAt(b, q, Named(name), comment);
    if r.None? {
      KeyHere(f, b, q, Named(name), comment);
    } else {
      F.GoesOn(f, b, q, Named(name), comment);
      if b[q] == '[' {
        RunsOver(f, b, r.value.0, r.value.1, comment);
      } else {
        FollowsOn(f, b, q, Named(name), comment);
        SectionOfKey(f, b, r.value.0, name, r.value.2);
      }
    }
  }

  lemma KeyHere(f: Format, b: string, q: int, s: SectionAt, comment: Option<string>)
    requires Ended(b) && 0 <= q < |b| && !IsSpace(b[q]) && (s.Raw? ==> 0 <= s.at <= q)
    requires F.GoesOnAt(b, q, s, comment).None?
    ensures var r := NextEntry(f, b, q, s, comment);
      && (r.KeyFound? <==> KeyFollows(f, b, q))
      && (r.KeyFound? && s.Named? ==> r.section == s.name)
  {
    assert Scan(b, q, NotSpace) == q;
    if b[q] != NUL && b[q] != '[' {
      F.AtKey(f, b, q, s, comment, Scan(b, q, Equals));
    }
  }

  /** Where the section pointer points does not matter exactly as long as no key follows. */
  lemma {:induction false} PointerForgotten(f: Format, b: string, p: int, s: SectionAt, s': SectionAt,
                                            comment: Option<string>)
    requires Ended(b) && 0 <= p < |b| && (s.Raw? ==> 0 <= s.at <= p) && (s'.Raw? ==> 0 <= s'.at <= p)
    requires !KeyFollows(f, b, p)
    ensures NextEntry(f, b, p, s, comment) == NextEntry(f, b, p, s', comment)
    decreases |b| - p
  {
    var q := Scan(b, p, NotSpace);
    F.SkipsSpace(f, b, p, s, comment);
    F.SkipsSpace(f, b, p, s', comment);
    FollowsFrom(f, b, p, q);
    var r, r' := F.GoesOnAt(b, q, s, comment), F.GoesOnAt(b, q, s', comment);
    if r.None? {
      StopsAlike(f, b, q, s, s', comment);
      KeyHere(f, b, q, s, comment);
    } else {
      F.GoesOn(f, b, q, s, comment);
      F.GoesOn(f, b, q, s', comment);
      if b[q] != '[' {
        FollowsOn(f, b, q, s, comment);
        PointerForgotten(f, b, r.value.0, r.value.1, r'.value.1, r.value.2);
      }
    }
  }

  /** A header that is not closed is skipped, as the program means to, if and only if no key follows before the next
      header: otherwise that key is found in a section whose name runs from the header over the end of its line. The
      one exception is a section that had just that name, from an earlier header that was left open. */
  lemma UnclosedHeader(f: Format, b: string, q: int, section: string, comment: Option<string>, n: int, e: int)
    requires Ended(b) && 0 <= q < |b| && OpenHeader(b, q, n, e)
    ensures var r, skipped := NextEntry(f, b, q, Named(section), comment), NextEntry(f, b, e, Named(section), comment);
      && (r == skipped <==> !KeyFollows(f, b, e) || (r.KeyFound? && r.section == section))
      && (!HasNewLine(section) ==> (r == skipped <==> !KeyFollows(f, b, e)))
      && SameButSection(skipped, r)
      && (KeyFollows(f, b, e) ==> r.KeyFound? && HasNewLine(r.section) && skipped.section == section)
  {
    F.AtBracket(f, b, q, Named(section), comment, n, e);
    RunsOver(f, b, e, Raw(n), comment);
    SectionOfKey(f, b, e, section, comment);
    PointerMatters(f, b, e, Named(section), Raw(n), comment);
    if !KeyFollows(f, b, e) {
      PointerForgotten(f, b, e, Named(section), Raw(n), comment);
    }
  }

  lemma OneValue(f: Format, b: string)
    requires b == "[a\nk=v\n\0"
    ensures Value(f, b, 4) == Some(("v", 7))
  {
    assert Scan(b, 5, NotBlank) == 5 && Scan(b, 6, LineEnd) == 6 && Scan(b, 5, LineEnd) == 6;
    assert TrimEnd(b, 5, 6) == 6 && b[5..6] == "v";
  }

  lemma HeaderOfText(f: Format, b: string)
    requires b == "[a\nk=v\n\0"
    ensures NextEntry(f, b, 0, Named("s"), None) == NextEntry(f, b, 3, Raw(1), None)
  {
    assert Scan(b, 1, NotSpace) == 1 && Scan(b, 2, Bracket) == 2;
    F.AtBracket(f, b, 0, Named("s"), None, 1, 2);
    assert Scan(b, 2, NotSpace) == 3;
    F.SkipsSpace(f, b, 2, Raw(1), None);
  }

  lemma KeyOfText(f: Format, b: string)
    requires b == "[a\nk=v\n\0"
    ensures NextEntry(f, b, 3, Raw(1), None) == KeyFound("a\nk", "k", "v", None, 7)
  {
    assert Scan(b, 3, Equals) == 4 && TrimEnd(b, 3, 4) == 4 && b[3..4] == "k" && b[1..4] + [] == "a\nk";
    OneValue(f, b);
    F.AtKey(f, b, 3, Raw(1), None, 4);
  }

  /** A text where it shows. */
  lemma OpenHeaderText(f: Format)
    ensures NextEntry(f, "[a\nk=v\n\0", 0, Named("s"), None) == KeyFound("a\nk", "k", "v", None, 7)
  {
    HeaderOfText(f, "[a\nk=v\n\0");
    KeyOfText(f, "[a\nk=v\n\0");
  }
}
