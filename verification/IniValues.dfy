/** Which values come back as they were written. */
module IniValues {
  import opened Options
  import opened IniCompare
  import opened IniFormat
  import opened IniText
  import opened IniLoad
  import opened IniParse
  import opened IniPrint
  import F = IniFind

  /** text stands at p. */
  ghost predicate At(b: string, p: int, text: string) {
    0 <= p && p + |text| <= |b| && forall i {:trigger text[i]} :: 0 <= i < |text| ==> b[p + i] == text[i]
  }

  lemma AtParts(b: string, p: int, s: string, t: string)
    requires At(b, p, s + t)
    ensures At(b, p, s) && At(b, p + |s|, t)
  {
    forall i | 0 <= i < |s| ensures b[p + i] == s[i] {
      assert (s + t)[i] == s[i];
    }
    forall i | 0 <= i < |t| ensures b[p + |s| + i] == t[i] {
      assert (s + t)[|s| + i] == t[i];
    }
  }

  lemma AtSlice(b: string, p: int, text: string)
    requires At(b, p, text)
    ensures b[p..p + |text|] == text
  {
  }

  lemma {:induction false} ScanOver(b: string, p: int, u: Until, n: int)
    requires Ended(b) && 0 <= p <= n < |b| && Stops(u, b[n])
    requires forall i :: p <= i < n ==> !Stops(u, b[i])
    ensures Scan(b, p, u) == n
    decreases n - p
  {
    if p < n {
      ScanOver(b, p + 1, u, n);
    }
  }

  lemma {:induction false} TrimExact(b: string, lo: int, hi: int, t: int)
    requires 0 <= lo <= t <= hi <= |b| && (t == lo || !IsSpace(b[t - 1]))
    requires forall i :: t <= i < hi ==> IsSpace(b[i])
    ensures TrimEnd(b, lo, hi) == t
    decreases hi - lo
  {
    if t < hi {
      TrimExact(b, lo, hi - 1, t);
    }
  }

  ghost predicate OneLine(s: string) {
    forall i :: 0 <= i < |s| ==> s[i] != NUL && !IsNewLineChar(s[i])
  }

  /** The first thing behind "=" or " = ". */
  function ValueStart(f: Format, e: int): int {
    if f.spaces then e + 2 else e + 1
  }

  /** A text on one line behind the '=' at e, with nothing to trim. */
  lemma LineBehind(f: Format, b: string, e: int, text: string, l: int)
    requires Ended(b) && 0 <= e && e + 1 < |b| && (f.spaces ==> b[e + 1] == ' ')
    requires At(b, ValueStart(f, e), text + "\n") && OneLine(text) && !SpaceFirst(text) && !SpaceLast(text)
    requires l == ValueStart(f, e) + |text|
    ensures l + 1 < |b| && b[l] == '\n' && Scan(b, e + 1, NotBlank) == ValueStart(f, e)
    ensures Scan(b, ValueStart(f, e), LineEnd) == l
    ensures TrimEnd(b, ValueStart(f, e), l) == l && b[ValueStart(f, e)..l] == text
  {
    var v := ValueStart(f, e);
    AtParts(b, v, text, "\n");
    assert "\n"[0] == '\n' && b[l] == '\n';
    assert text != [] ==> b[v] == text[0];
    ScanOver(b, e + 1, NotBlank, v);
    forall i | v <= i < l ensures !Stops(LineEnd, b[i]) {
      assert b[i] == text[i - v];
    }
    ScanOver(b, v, LineEnd, l);
    assert text != [] ==> b[l - 1] == text[|text| - 1];
    TrimExact(b, v, l, l);
    AtSlice(b, v, text);
  }

  lemma OneLineValue(f: Format, b: string, e: int, text: string, next: int)
    requires Ended(b) && 0 <= e && e + 1 < |b| && (f.spaces ==> b[e + 1] == ' ')
    requires At(b, ValueStart(f, e), text + "\n") && OneLine(text) && !SpaceFirst(text) && !SpaceLast(text)
    requires (f.multiLine ==> !IsMultiLineTag(text)) && next == ValueStart(f, e) + |text| + 1
    ensures Value(f, b, e) == Some((Unquoted(f, text), next))
  {
    LineBehind(f, b, e, text, next - 1);
  }

  /** A text that looks like a tag makes the lines behind it the value. */
  lemma TagLineValue(f: Format, b: string, e: int, text: string, next: int)
    requires Ended(b) && 0 <= e && e + 1 < |b| && (f.spaces ==> b[e + 1] == ' ')
    requires At(b, ValueStart(f, e), text + "\n") && OneLine(text) && !SpaceLast(text)
    requires f.multiLine && IsMultiLineTag(text) && next == ValueStart(f, e) + |text| + 1
    ensures next < |b| && Value(f, b, e) == MultiLine(b, next, text[3..], f.noCase)
  {
    var v, l := ValueStart(f, e), next - 1;
    LineBehind(f, b, e, text, l);
    TagAt(b, v, text);
    F.PiecesTagged(f, b, e, v, l, l, next);
  }

  lemma TagAt(b: string, p: int, text: string)
    requires At(b, p, text + "\n") && |text| >= 3
    ensures b[p + 3..p + |text|] == text[3..]
  {
    AtParts(b, p, text, "\n");
    AtSlice(b, p, text);
    assert b[p + 3..p + |text|] == b[p..p + |text|][3..];
  }

  // ------------------------------------------------------------------ multi-line values

  /** Where the first line of v ends. */
  function FirstLine(v: string): (k: nat)
    ensures k <= |v| && (k < |v| ==> v[k] == '\n')
  {
    if v == [] || v[0] == '\n' then 0 else 1 + FirstLine(v[1..])
  }

  lemma {:induction false} FirstLineHas(v: string, i: nat)
    requires i < FirstLine(v)
    ensures v[i] != '\n'
  {
    if i > 0 {
      FirstLineHas(v[1..], i - 1);
    }
  }

  function CutTag(line: string): string {
    line[..TagEnd(line, 0, |line|)]
  }

  /** The texts that the comparison cannot tell from the tag. */
  ghost function Like(noCase: bool, tag: string): iset<string> {
    iset x: string | Same(noCase, x, tag)
  }

  /** No line of v, without the white space at its end, is a tag. */
  ghost predicate TagFree(tags: iset<string>, v: string)
    decreases |v|
  {
    var k := FirstLine(v);
    CutTag(v[..k]) !in tags && (k < |v| ==> TagFree(tags, v[k + 1..]))
  }

  /** Lines before any line has moved, for any set of tags. */
  ghost function LinesTo(b: string, p: int, tags: iset<string>): (r: Option<(string, int)>)
    requires Ended(b) && 0 <= p < |b|
    decreases |b| - p
  {
    var e := Scan(b, p, LineEnd);
    if b[p..TagEnd(b, p, e)] in tags then Some(([], if b[e] == NUL then e else AfterNewLine(b, e)))
    else if b[e] != '\n' then None
    else
      var r := LinesTo(b, e + 1, tags);
      if r.None? then None else Some((b[p..e] + "\n" + r.value.0, r.value.1))
  }

  lemma {:induction false} LinesToAreLines(b: string, p: int, tag: string, noCase: bool)
    requires Ended(b) && 0 <= p < |b|
    requires LinesTo(b, p, Like(noCase, tag)).Some?
    ensures var r := LinesTo(b, p, Like(noCase, tag)).value; var l := Lines(b, p, tag, noCase, false);
            l.Tagged? && l.text == r.0 && l.next == r.1
    decreases |b| - p
  {
    var e := Scan(b, p, LineEnd);
    if !Same(noCase, b[p..TagEnd(b, p, e)], tag) {
      LinesToAreLines(b, e + 1, tag, noCase);
    }
  }

  ghost predicate NoReturn(v: string) {
    forall i :: 0 <= i < |v| ==> v[i] != '\r'
  }

  lemma {:induction false} TrimShift(b: string, lo: int, hi: int, c: string, m: int)
    requires 0 <= lo <= hi <= |b| && 0 <= m && m + (hi - lo) <= |c|
    requires forall i :: lo <= i < hi ==> b[i] == c[m + (i - lo)]
    ensures TrimEnd(b, lo, hi) - lo == TrimEnd(c, m, m + (hi - lo)) - m
    decreases hi - lo
  {
    if lo < hi {
      assert b[hi - 1] == c[m + (hi - 1 - lo)];
      TrimShift(b, lo, hi - 1, c, m);
    }
  }

  lemma CutTagIs(b: string, p: int, line: string)
    requires At(b, p, line)
    ensures b[p..TagEnd(b, p, p + |line|)] == CutTag(line)
  {
    if line != [] {
      TrimShift(line, 1, |line|, b, p + 1);
    }
    AtSlice(b, p, line);
    assert b[p..TagEnd(b, p, p + |line|)] == b[p..p + |line|][..TagEnd(line, 0, |line|)];
  }

  lemma EndIsTag(b: string, p: int, tags: iset<string>, tag: string, next: int)
    requires next == p + |tag| + 1 && Ended(b) && At(b, p, tag + "\n") && OneLine(tag) && tag != [] && !SpaceLast(tag)
    requires tag in tags
    ensures LinesTo(b, p, tags) == Some(([], next))
  {
    AtParts(b, p, tag, "\n");
    var e := p + |tag|;
    assert "\n"[0] == '\n' && b[e] == '\n';
    forall i | p <= i < e ensures !Stops(LineEnd, b[i]) {
      assert b[i] == tag[i - p];
    }
    ScanOver(b, p, LineEnd, e);
    assert b[e - 1] == tag[|tag| - 1];
    TrimExact(b, p + 1, e, e);
    AtSlice(b, p, tag);
  }

  lemma LineOfValue(b: string, p: int, v: string)
    requires Ended(b) && At(b, p, v + "\n") && NoNul(v) && NoReturn(v)
    ensures Scan(b, p, LineEnd) == p + FirstLine(v) && b[p + FirstLine(v)] == '\n'
    ensures At(b, p, v[..FirstLine(v)])
  {
    var k := FirstLine(v);
    AtParts(b, p, v, "\n");
    assert "\n"[0] == '\n' && b[p + |v|] == '\n';
    forall i | p <= i < p + k ensures !Stops(LineEnd, b[i]) {
      FirstLineHas(v, i - p);
      assert b[i] == v[i - p];
    }
    assert k < |v| ==> b[p + k] == v[k];
    ScanOver(b, p, LineEnd, p + k);
  }

  lemma LinesShape(v: string, k: nat, tail: string)
    requires k < |v| && v[k] == '\n'
    ensures v + tail == (v[..k] + "\n") + (v[k + 1..] + tail)
  {
    assert v == v[..k] + "\n" + v[k + 1..];
  }

  lemma AtRest(b: string, p: int, v: string, k: nat, tail: string)
    requires At(b, p, v + tail) && k < |v| && v[k] == '\n'
    ensures At(b, p + k + 1, v[k + 1..] + tail)
  {
    LinesShape(v, k, tail);
    AtParts(b, p, v[..k] + "\n", v[k + 1..] + tail);
  }

  lemma LinesNext(b: string, p: int, e: int, line: string, tags: iset<string>, more: string, all: string, next: int)
    requires Ended(b) && 0 <= p < |b| && e == Scan(b, p, LineEnd) && b[e] == '\n' && b[p..e] == line
    requires b[p..TagEnd(b, p, e)] == CutTag(line) && CutTag(line) !in tags
    requires e + 1 < |b| && LinesTo(b, e + 1, tags) == Some((more, next)) && all == line + "\n" + more
    ensures LinesTo(b, p, tags) == Some((all, next))
  {
  }

  lemma LineStands(b: string, p: int, v: string)
    requires Ended(b) && At(b, p, v + "\n") && NoNul(v) && NoReturn(v)
    ensures var k := FirstLine(v);
            Scan(b, p, LineEnd) == p + k && b[p + k] == '\n' && b[p..p + k] == v[..k]
              && b[p..TagEnd(b, p, p + k)] == CutTag(v[..k])
  {
    LineOfValue(b, p, v);
    CutTagIs(b, p, v[..FirstLine(v)]);
    AtSlice(b, p, v[..FirstLine(v)]);
  }

  lemma RestClean(v: string, k: nat)
    requires NoNul(v) && NoReturn(v) && k <= |v|
    ensures NoNul(v[k..]) && NoReturn(v[k..])
  {
  }

  lemma {:induction false} LinesOfValue(b: string, p: int, v: string, tags: iset<string>, tag: string, next: int)
    requires Ended(b) && At(b, p, v + ("\n" + tag + "\n")) && NoNul(v) && NoReturn(v) && TagFree(tags, v)
    requires OneLine(tag) && tag != [] && !SpaceLast(tag) && tag in tags && next == p + |v| + |tag| + 2
    ensures LinesTo(b, p, tags) == Some((v + "\n", next))
    decreases |v|
  {
    var k := FirstLine(v);
    AtTail(b, p, v, tag);
    LineStands(b, p, v);
    if k < |v| {
      AtRest(b, p, v, k, "\n" + tag + "\n");
      RestClean(v, k + 1);
      LinesOfValue(b, p + k + 1, v[k + 1..], tags, tag, next);
      LinesShape(v, k, "\n");
      LinesNext(b, p, p + k, v[..k], tags, v[k + 1..] + "\n", v + "\n", next);
    } else {
      EndIsTag(b, p + |v| + 1, tags, tag, next);
      assert v[..k] == v;
      assert v + "\n" + [] == v + "\n";
      LinesNext(b, p, p + k, v, tags, [], v + "\n", next);
    }
  }

  lemma AtTail(b: string, p: int, v: string, tag: string)
    requires At(b, p, v + ("\n" + tag + "\n"))
    ensures At(b, p, v + "\n") && At(b, p + |v| + 1, tag + "\n")
  {
    assert v + ("\n" + tag + "\n") == (v + "\n") + (tag + "\n");
    AtParts(b, p, v + "\n", tag + "\n");
  }

  // ------------------------------------------------------------------ which values are safe

  /** The values that come back, case by case of how Save writes them. */
  ghost predicate ValueSafe(f: Format, v: string) {
    if Quotes(f, v) then !HasNewLine(v)
    else if Spreads(f, v) then '\r' !in v && TagFree(Like(f.noCase, END), v)
    else !SpaceFirst(v) && !SpaceLast(v) && !HasNewLine(v) && !(f.multiLine && IsMultiLineTag(v)) && Unquoted(f, v) == v
  }

  /** The text of a value stands behind the '=' at e, and the text goes on behind it. */
  ghost predicate Written(f: Format, b: string, e: int, v: string) {
    && Ended(b) && 0 <= e && e + 1 < |b| && b[e] == '=' && (f.spaces ==> b[e + 1] == ' ')
    && At(b, ValueStart(f, e), ValueText(f, v) + "\n") && NoNul(v)
  }

  function ValueEnd(f: Format, e: int, v: string): int {
    ValueStart(f, e) + |ValueText(f, v)| + 1
  }

  lemma QuotedBack(f: Format, b: string, e: int, v: string, next: int)
    requires Written(f, b, e, v) && Quotes(f, v) && !HasNewLine(v) && next == ValueEnd(f, e, v)
    ensures Value(f, b, e) == Some((v, next))
  {
    var text := "\"" + v + "\"";
    assert OneLine(text);
    OneLineValue(f, b, e, text, next);
    assert text[1..|text| - 1] == v;
  }

  lemma PlainBack(f: Format, b: string, e: int, v: string, next: int)
    requires Written(f, b, e, v) && !Quotes(f, v) && !Spreads(f, v) && ValueSafe(f, v) && next == ValueEnd(f, e, v)
    ensures Value(f, b, e) == Some((v, next))
  {
    assert OneLine(v);
    OneLineValue(f, b, e, v, next);
  }

  lemma EndIsLine(noCase: bool)
    ensures OneLine(END) && END != [] && !SpaceLast(END) && END in Like(noCase, END)
  {
    LessIrreflexive(noCase, END);
  }

  lemma LinesAreMultiLine(b: string, p: int, tag: string, noCase: bool, v: string, next: int)
    requires Ended(b) && 0 <= p < |b| && LinesTo(b, p, Like(noCase, tag)) == Some((v + "\n", next))
    ensures MultiLine(b, p, tag, noCase) == Some((v, next))
  {
    LinesToAreLines(b, p, tag, noCase);
    assert (v + "\n")[..|v + "\n"| - 1] == v;
  }

  lemma LinesBeforeTag(b: string, p: int, noCase: bool, v: string, tag: string, next: int)
    requires Ended(b) && 0 <= p < |b| && At(b, p, v + ("\n" + tag + "\n")) && NoNul(v) && NoReturn(v)
    requires TagFree(Like(noCase, tag), v)
    requires OneLine(tag) && tag != [] && !SpaceLast(tag) && tag in Like(noCase, tag) && next == p + |v| + |tag| + 2
    ensures MultiLine(b, p, tag, noCase) == Some((v, next))
  {
    LinesOfValue(b, p, v, Like(noCase, tag), tag, next);
    LinesAreMultiLine(b, p, tag, noCase, v, next);
  }

  lemma ReturnFree(v: string)
    requires '\r' !in v
    ensures NoReturn(v)
  {
  }

  lemma SpreadValue(f: Format, b: string, e: int)
    requires Ended(b) && 0 <= e && e + 1 < |b| && (f.spaces ==> b[e + 1] == ' ') && f.multiLine
    requires At(b, ValueStart(f, e), "<<<" + END + "\n")
    ensures ValueStart(f, e) + 15 < |b| && Value(f, b, e) == MultiLine(b, ValueStart(f, e) + 15, END, f.noCase)
  {
    var text := "<<<" + END;
    TagLineValue(f, b, e, text, ValueStart(f, e) + 15);
    assert text[3..] == END;
  }

  lemma SpreadBack(f: Format, b: string, e: int, v: string, next: int)
    requires Written(f, b, e, v) && Spreads(f, v) && '\r' !in v && TagFree(Like(f.noCase, END), v)
    requires next == ValueEnd(f, e, v)
    ensures Value(f, b, e) == Some((v, next))
  {
    SpreadStands(f, b, e, v);
    SpreadValue(f, b, e);
    ReturnFree(v);
    EndIsLine(f.noCase);
    LinesBeforeTag(b, ValueStart(f, e) + 15, f.noCase, v, END, next);
  }

  lemma SpreadStands(f: Format, b: string, e: int, v: string)
    requires Written(f, b, e, v) && Spreads(f, v)
    ensures At(b, ValueStart(f, e), "<<<" + END + "\n") && ValueStart(f, e) + 15 < |b|
    ensures At(b, ValueStart(f, e) + 15, v + ("\n" + END + "\n"))
    ensures ValueEnd(f, e, v) == ValueStart(f, e) + 15 + |v| + |END| + 2
  {
    assert v != [];
    assert ValueText(f, v) + "\n" == ("<<<" + END + "\n") + (v + ("\n" + END + "\n"));
    AtParts(b, ValueStart(f, e), "<<<" + END + "\n", v + ("\n" + END + "\n"));
  }

  /** A safe value comes back as it was, and reading goes on behind its text. */
  lemma SafeReadsBack(f: Format, b: string, e: int, v: string, next: int)
    requires Written(f, b, e, v) && ValueSafe(f, v) && next == ValueEnd(f, e, v)
    ensures Value(f, b, e) == Some((v, next))
  {
    if Quotes(f, v) {
      QuotedBack(f, b, e, v, next);
    } else if Spreads(f, v) {
      SpreadBack(f, b, e, v, next);
    } else {
      PlainBack(f, b, e, v, next);
    }
  }

  // ------------------------------------------------------------------ the others do not come back

  lemma LineIsOneLine(b: string, p: int, lo: int, hi: int)
    requires Ended(b) && 0 <= p < |b| && p <= lo <= hi <= Scan(b, p, LineEnd)
    ensures OneLine(b[lo..hi])
  {
    var text := b[lo..hi];
    forall i | 0 <= i < |text| ensures text[i] != NUL && !IsNewLineChar(text[i]) {
      LineHasNoNul(b, p, LineEnd, lo + i);
    }
  }

  lemma {:induction false} TrimmedLast(b: string, lo: int, hi: int)
    requires 0 <= lo <= hi <= |b|
    ensures TrimEnd(b, lo, hi) > lo ==> !IsSpace(b[TrimEnd(b, lo, hi) - 1])
    decreases hi - lo
  {
    if hi > lo && IsSpace(b[hi - 1]) {
      TrimmedLast(b, lo, hi - 1);
    }
  }

  /** A value that is not multi-line is read from one line and trimmed. */
  lemma PlainIsTrimmed(f: Format, b: string, e: int)
    requires Ended(b) && 0 <= e && e + 1 < |b|
    ensures var v := Scan(b, e + 1, NotBlank); var t := TrimEnd(b, v, Scan(b, v, LineEnd));
      && OneLine(b[v..t]) && !SpaceFirst(b[v..t]) && !SpaceLast(b[v..t])
      && (!(f.multiLine && IsMultiLineTag(b[v..t])) ==>
          Value(f, b, e).Some? && Value(f, b, e).value.0 == Unquoted(f, b[v..t]))
  {
    var v := Scan(b, e + 1, NotBlank);
    var l := Scan(b, v, LineEnd);
    var t := TrimEnd(b, v, l);
    LineIsOneLine(b, v, v, t);
    TrimmedLast(b, v, l);
    if v < t {
      assert b[v] == b[v..t][0] && b[t - 1] == b[v..t][t - v - 1];
    }
  }

  lemma UnquotedOneLine(f: Format, v: string)
    requires OneLine(v)
    ensures OneLine(Unquoted(f, v))
  {
  }

  lemma NotOneLine(v: string)
    requires HasNewLine(v)
    ensures !OneLine(v)
  {
  }

  /** Behind a quote no tag is looked for. */
  lemma QuoteFirst(b: string, e: int, f: Format, rest: string)
    requires Ended(b) && 0 <= e && e + 1 < |b| && (f.spaces ==> b[e + 1] == ' ')
    requires At(b, ValueStart(f, e), "\"" + rest)
    ensures Scan(b, e + 1, NotBlank) == ValueStart(f, e) && b[ValueStart(f, e)] == '"'
  {
    AtParts(b, ValueStart(f, e), "\"", rest);
    assert b[ValueStart(f, e)] == "\""[0];
    ScanOver(b, e + 1, NotBlank, ValueStart(f, e));
  }

  lemma BrokenQuote(f: Format, b: string, e: int, v: string)
    requires Written(f, b, e, v) && Quotes(f, v) && HasNewLine(v)
    ensures Value(f, b, e).None? || Value(f, b, e).value.0 != v
  {
    assert ValueText(f, v) + "\n" == "\"" + (v + "\"" + "\n");
    QuoteFirst(b, e, f, v + "\"" + "\n");
    PlainIsTrimmed(f, b, e);
    var s := Scan(b, e + 1, NotBlank);
    UnquotedOneLine(f, b[s..TrimEnd(b, s, Scan(b, s, LineEnd))]);
    NotOneLine(v);
  }

  /** Without multi-line values a newline or outer white space is lost. */
  lemma PlainLost(f: Format, b: string, e: int, v: string)
    requires Written(f, b, e, v) && !Quotes(f, v) && !Spreads(f, v) && (SpaceFirst(v) || SpaceLast(v) || HasNewLine(v))
    ensures Value(f, b, e).None? || Value(f, b, e).value.0 != v
  {
    PlainIsTrimmed(f, b, e);
    var s := Scan(b, e + 1, NotBlank);
    UnquotedOneLine(f, b[s..TrimEnd(b, s, Scan(b, s, LineEnd))]);
    if HasNewLine(v) {
      NotOneLine(v);
    }
  }

  lemma {:induction false} LinesPast(b: string, p: int, tag: string, noCase: bool, moved: bool)
    requires Ended(b) && 0 <= p < |b|
    ensures b[p] != NUL ==> Lines(b, p, tag, noCase, moved).next > p
    ensures b[p] == NUL ==> Lines(b, p, tag, noCase, moved).text == []
    decreases |b| - p
  {
  }

  /** A value that looks like a tag swallows what comes after it. */
  lemma TagSwallows(f: Format, b: string, e: int, v: string, next: int)
    requires Written(f, b, e, v) && f.multiLine && IsMultiLineTag(v) && OneLine(v) && !SpaceFirst(v) && !SpaceLast(v)
    requires ValueText(f, v) == v && next == ValueEnd(f, e, v)
    ensures Value(f, b, e) != Some((v, next))
  {
    TagLineValue(f, b, e, v, next);
    LinesPast(b, next, v[3..], f.noCase, false);
  }

  lemma {:induction false} LinesNoReturn(b: string, p: int, tag: string, noCase: bool, moved: bool)
    requires Ended(b) && 0 <= p < |b|
    ensures NoReturn(Lines(b, p, tag, noCase, moved).text)
    decreases |b| - p
  {
    var e := Scan(b, p, LineEnd);
    LineIsOneLine(b, p, p, e);
    if !Same(noCase, Seen(b, p, moved), tag) && b[e] != NUL {
      var q := AfterNewLine(b, e);
      LinesNoReturn(b, q, tag, noCase, moved || q == e + 2);
    }
  }

  lemma {:induction false} CStringLong(b: string, p: int, n: int)
    requires Ended(b) && 0 <= p && p + n < |b| && n >= 0 && forall i :: p <= i < p + n ==> b[i] != NUL
    ensures |CString(b, p)| >= n
    decreases n
  {
    if n > 0 {
      CStringLong(b, p + 1, n - 1);
    }
  }

  lemma ValueNoReturn(b: string, p: int, tag: string, noCase: bool)
    requires Ended(b) && 0 <= p < |b| && MultiLine(b, p, tag, noCase).Some?
    ensures var l := Lines(b, p, tag, noCase, false); var e := Scan(b, p, LineEnd);
            l.Open? || l.text != [] || TagEnd(b, p, e) < e ==> NoReturn(MultiLine(b, p, tag, noCase).value.0)
  {
    LinesNoReturn(b, p, tag, noCase, false);
    var e := Scan(b, p, LineEnd);
    LineIsOneLine(b, p, p, TagEnd(b, p, e));
  }

  lemma LongString(b: string, p: int, v: string)
    requires Ended(b) && At(b, p, v + "\n") && NoNul(v)
    ensures p < |b| && |CString(b, p)| > |v|
  {
    AtParts(b, p, v, "\n");
    assert "\n"[0] == '\n' && b[p + |v|] == '\n';
    forall i | p <= i < p + |v| + 1 ensures b[i] != NUL {
      assert i < p + |v| ==> b[i] == v[i - p];
    }
    CStringLong(b, p, |v| + 1);
  }

  /** A carriage return does not come back. */
  lemma ReturnLost(b: string, p: int, tag: string, noCase: bool, v: string)
    requires Ended(b) && At(b, p, v + "\n") && NoNul(v) && '\r' in v && p < |b|
    ensures MultiLine(b, p, tag, noCase).None? || MultiLine(b, p, tag, noCase).value.0 != v
  {
    LongString(b, p, v);
    if MultiLine(b, p, tag, noCase).Some? {
      ValueNoReturn(b, p, tag, noCase);
      var i :| 0 <= i < |v| && v[i] == '\r';
      assert !NoReturn(v);
    }
  }

  /** A line of the value that looks like the tag ends it early. */
  lemma {:induction false} TagInside(b: string, p: int, v: string, tags: iset<string>)
    requires Ended(b) && At(b, p, v + "\n") && NoNul(v) && NoReturn(v) && !TagFree(tags, v)
    ensures p < |b| && LinesTo(b, p, tags).Some? && LinesTo(b, p, tags).value.1 <= p + |v| + 1
    decreases |v|
  {
    var k := FirstLine(v);
    LineStands(b, p, v);
    if CutTag(v[..k]) !in tags {
      AtRest(b, p, v, k, "\n");
      RestClean(v, k + 1);
      TagInside(b, p + k + 1, v[k + 1..], tags);
    }
  }

  lemma TagEndsEarly(b: string, p: int, v: string, noCase: bool, tag: string, next: int)
    requires Ended(b) && At(b, p, v + "\n") && NoNul(v) && NoReturn(v) && !TagFree(Like(noCase, tag), v)
    requires next > p + |v| + 1 && p < |b|
    ensures MultiLine(b, p, tag, noCase) != Some((v, next))
  {
    TagInside(b, p, v, Like(noCase, tag));
    LinesToAreLines(b, p, tag, noCase);
  }

  lemma SpreadPlace(f: Format, b: string, e: int, v: string, p: int, next: int)
    requires Written(f, b, e, v) && Spreads(f, v) && p == ValueStart(f, e) + 15 && next == ValueEnd(f, e, v)
    ensures Ended(b) && 0 <= p < |b| && At(b, p, v + "\n") && NoNul(v) && next > p + |v| + 1
    ensures Value(f, b, e) == MultiLine(b, p, END, f.noCase)
  {
    SpreadStands(f, b, e, v);
    SpreadValue(f, b, e);
    AtTail(b, p, v, END);
  }

  lemma SpreadLost(f: Format, b: string, e: int, v: string, next: int)
    requires Written(f, b, e, v) && Spreads(f, v) && next == ValueEnd(f, e, v)
    requires '\r' in v || !TagFree(Like(f.noCase, END), v)
    ensures Value(f, b, e) != Some((v, next))
  {
    var p := ValueStart(f, e) + 15;
    SpreadPlace(f, b, e, v, p, next);
    if '\r' in v {
      ReturnLost(b, p, END, f.noCase, v);
    } else {
      ReturnFree(v);
      TagEndsEarly(b, p, v, f.noCase, END, next);
    }
  }

  /** Exactly the safe values come back, with reading going on behind their text. */
  lemma ReadsBackIffSafe(f: Format, b: string, e: int, v: string, next: int)
    requires Written(f, b, e, v) && next == ValueEnd(f, e, v)
    ensures Value(f, b, e) == Some((v, next)) <==> ValueSafe(f, v)
  {
    if ValueSafe(f, v) {
      SafeReadsBack(f, b, e, v, next);
    } else if Quotes(f, v) {
      BrokenQuote(f, b, e, v);
    } else if Spreads(f, v) {
      SpreadLost(f, b, e, v, next);
    } else {
      PlainUnsafe(f, b, e, v, next);
    }
  }

  lemma PlainUnsafe(f: Format, b: string, e: int, v: string, next: int)
    requires Written(f, b, e, v) && next == ValueEnd(f, e, v) && !ValueSafe(f, v) && !Quotes(f, v) && !Spreads(f, v)
    ensures Value(f, b, e) != Some((v, next))
  {
    if SpaceFirst(v) || SpaceLast(v) || HasNewLine(v) {
      PlainLost(f, b, e, v);
    } else {
      assert OneLine(v);
      if f.multiLine && IsMultiLineTag(v) {
        TagSwallows(f, b, e, v, next);
      } else {
        OneLineValue(f, b, e, v, next);
      }
    }
  }
}
