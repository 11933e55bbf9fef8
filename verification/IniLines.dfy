/** What the lines of a text mean, with every character written out: which lines are comments, headers and keys, and
    what of them is white space. A clause that says `P(..) == true` states P as one fact, which the verifier does not
    unfold there. */
module IniLines {
  import opened Options
  import opened IniCompare
  import opened IniFormat
  import opened IniText
  import opened IniParse
  import opened IniValues
  import F = IniFind

  // ------------------------------------------------------------------ characters

  predicate Padding(s: string) {
    forall i :: 0 <= i < |s| ==> s[i] == ' ' || s[i] == '\t'
  }

  /** Within one line. */
  predicate InLine(s: string) {
    '\n' !in s && '\r' !in s && '\0' !in s
  }

  /** Within one line, without padding at either end. */
  predicate Bare(s: string) {
    InLine(s) && (s != "" ==> s[0] !in " \t" && s[|s| - 1] !in " \t")
  }

  // ------------------------------------------------------------------ one line

  datatype Body =
    | Blank
    | Remark(mark: char, text: string)
    | Heading(before: string, name: string, behind: string, more: string)
    | Key(key: string, before: string, behind: string, value: string, end: string)
    | Spread(key: string, before: string, behind: string, tag: string, end: string, lines: seq<string>, closing: string)
    | Other(text: string)

  /** A line with its indentation and its newline; a spread value is the line of its key and the lines up to its tag,
      which end with a line feed each. */
  datatype Line = Line(indent: string, body: Body, crlf: bool)

  predicate KeyGood(key: string, before: string, behind: string, end: string) {
    && Bare(key) && key != "" && key[0] !in ";#[" && '=' !in key
    && Padding(before) && Padding(behind) && Padding(end)
  }

  /** The line is the tag, with padding behind it. */
  ghost predicate Closes(f: Format, tag: string, line: string) {
    exists k :: 0 <= k <= |line| && Padding(line[k..]) && Same(f.noCase, line[..k], tag)
  }

  ghost predicate BodyGood(f: Format, body: Body) {
    match body
    case Blank => true
    case Remark(mark, text) => mark in ";#" && InLine(text)
    case Heading(before, name, behind, more) =>
      Padding(before) && Bare(name) && ']' !in name && Padding(behind) && InLine(more)
    case Key(key, before, behind, value, end) =>
      KeyGood(key, before, behind, end) && Bare(value) && !(f.multiLine && "<<<" <= value)
    case Spread(key, before, behind, tag, end, lines, closing) =>
      && KeyGood(key, before, behind, end) && f.multiLine && InLine(tag) && tag != "" && tag[|tag| - 1] !in " \t"
      && lines != [] && (forall i :: 0 <= i < |lines| ==> InLine(lines[i]) && !Closes(f, tag, lines[i]))
      && InLine(closing) && Closes(f, tag, closing)
    case Other(text) =>
      InLine(text) && text != "" && text[0] !in " \t;#[" && ('=' !in text || text[0] == '=')
  }

  ghost predicate Good(f: Format, l: Line) {
    Padding(l.indent) && BodyGood(f, l.body)
  }

  function BodyText(body: Body): string {
    match body
    case Blank => ""
    case Remark(mark, text) => [mark] + text
    case Heading(before, name, behind, more) => "[" + before + name + behind + "]" + more
    case Key(key, before, behind, value, end) => key + before + "=" + behind + value + end
    case Spread(key, before, behind, tag, end, _, _) => key + before + "=" + behind + ("<<<" + tag) + end
    case Other(text) => text
  }

  function Raw(lines: seq<string>): string {
    if lines == [] then "" else lines[0] + "\n" + Raw(lines[1..])
  }

  /** What stands below the first line. */
  function Below(body: Body): string {
    if body.Spread? then Raw(body.lines) + (body.closing + "\n") else ""
  }

  function NewLine(crlf: bool): string {
    if crlf then "\r\n" else "\n"
  }

  function LineText(l: Line): string {
    l.indent + BodyText(l.body) + NewLine(l.crlf) + Below(l.body)
  }

  function Text(ls: seq<Line>): string {
    if ls == [] then "" else LineText(ls[0]) + Text(ls[1..])
  }

  // ------------------------------------------------------------------ where a line stands

  /** The line from p on has its first other character than padding at q, its newline at e, and the next line starts at
      next. */
  ghost predicate Spot(b: string, p: int, q: int, e: int, next: int) {
    && Ended(b) && 0 <= p <= q <= e < next < |b|
    && (forall i :: p <= i < q ==> b[i] == ' ' || b[i] == '\t')
    && (forall i :: q <= i < e ==> b[i] != '\n' && b[i] != '\r' && b[i] != '\0')
    && ((b[e] == '\n' && next == e + 1) || (b[e] == '\r' && next == e + 2 && b[e + 1] == '\n'))
  }

  lemma {:induction false} ScanPast(b: string, p: int, n: int, u: Until)
    requires Ended(b) && 0 <= p <= n < |b| && forall i :: p <= i < n ==> !Stops(u, b[i])
    ensures Scan(b, p, u) == Scan(b, n, u)
    decreases n - p
  {
    if p < n {
      ScanPast(b, p + 1, n, u);
    }
  }

  lemma SpotScans(b: string, p: int, q: int, e: int, next: int)
    requires Spot(b, p, q, e, next)
    ensures AfterNewLine(b, e) == next && Scan(b, p, NotSpace) == Scan(b, q, NotSpace)
    ensures Scan(b, q, LineEnd) == e && Scan(b, e, LineEnd) == e
    ensures Scan(b, e, NotSpace) == Scan(b, next, NotSpace)
  {
    ScanPast(b, p, q, NotSpace);
    ScanPast(b, q, e, LineEnd);
    ScanPast(b, e, next, NotSpace);
  }

  /** Reading goes on behind white space. */
  lemma FromNewLine(f: Format, b: string, p: int, q: int, e: int, next: int, section: string, comment: Option<string>)
    requires Spot(b, p, q, e, next)
    ensures NextEntry(f, b, e, Named(section), comment) == NextEntry(f, b, next, Named(section), comment)
    ensures NextEntry(f, b, p, Named(section), comment) == NextEntry(f, b, q, Named(section), comment)
  {
    SpotScans(b, p, q, e, next);
    F.SkipsSpace(f, b, e, Named(section), comment);
    F.SkipsSpace(f, b, next, Named(section), comment);
    F.SkipsSpace(f, b, p, Named(section), comment);
    F.SkipsSpace(f, b, q, Named(section), comment);
  }

  // ------------------------------------------------------------------ what a line is read as

  lemma BlankIsSkipped(f: Format, b: string, p: int, q: int, next: int, section: string, comment: Option<string>)
    requires Spot(b, p, q, q, next)
    ensures NextEntry(f, b, p, Named(section), comment) == NextEntry(f, b, next, Named(section), comment)
  {
    FromNewLine(f, b, p, q, q, next, section, comment);
  }

  lemma OtherIsSkipped(f: Format, b: string, p: int, q: int, e: int, next: int, section: string,
                       comment: Option<string>)
    requires Spot(b, p, q, e, next) && q < e && b[q] !in " \t;#["
    requires b[q] == '=' || forall i :: q <= i < e ==> b[i] != '='
    ensures NextEntry(f, b, p, Named(section), comment) == NextEntry(f, b, next, Named(section), comment)
  {
    FromNewLine(f, b, p, q, e, next, section, comment);
    SpotScans(b, p, q, e, next);
    if b[q] == '=' {
      F.AtKey(f, b, q, Named(section), comment, q);
    } else {
      ScanOver(b, q, Equals, e);
      F.AtKey(f, b, q, Named(section), comment, e);
    }
  }

  /** A header: the name between the brackets, from n to t, with padding around it; ']' is at c. */
  ghost predicate HeaderSpot(b: string, p: int, q: int, e: int, next: int, n: int, t: int, c: int) {
    && Spot(b, p, q, e, next) && q < n <= t <= c < e && b[q] == '[' && b[c] == ']'
    && (forall i :: q < i < n ==> b[i] == ' ' || b[i] == '\t')
    && (forall i :: t <= i < c ==> b[i] == ' ' || b[i] == '\t')
    && (forall i :: n <= i < t ==> b[i] != ']')
    && (if n < t then b[n] !in " \t" && b[t - 1] !in " \t" else n == c)
  }

  lemma HeaderScans(b: string, p: int, q: int, e: int, next: int, n: int, t: int, c: int)
    requires HeaderSpot(b, p, q, e, next, n, t, c)
    ensures 0 <= q && n < |b| && c + 1 < |b|
    ensures Scan(b, q + 1, NotSpace) == n && Scan(b, n, Bracket) == c && TrimEnd(b, n, c) == t
    ensures Scan(b, c + 1, LineEnd) == e
  {
    ScanPast(b, q + 1, n, NotSpace);
    assert n < t ==> !IsSpace(b[n]) && !IsSpace(b[t - 1]);
    ScanPast(b, n, c, Bracket);
    TrimExact(b, n, c, t);
    ScanPast(b, c + 1, e, LineEnd);
  }

  lemma HeaderIsFound(f: Format, b: string, p: int, q: int, e: int, next: int, section: string,
                      comment: Option<string>, n: int, t: int, c: int)
    requires HeaderSpot(b, p, q, e, next, n, t, c) == true
    ensures 0 <= n <= t <= |b|
    ensures NextEntry(f, b, p, Named(section), comment) == SectionFound(b[n..t], comment, e)
  {
    assert Spot(b, p, q, e, next);
    FromNewLine(f, b, p, q, e, next, section, comment);
    HeaderScans(b, p, q, e, next, n, t, c);
    F.AtBracket(f, b, q, Named(section), comment, n, c);
  }

  /** A key: the key from q to t, '=' at a, the value from v to w, with padding behind the key and around the value. */
  ghost predicate KeySpot(b: string, p: int, q: int, e: int, next: int, t: int, a: int, v: int, w: int) {
    && Spot(b, p, q, e, next) && q < t <= a < v <= w <= e && b[a] == '='
    && b[q] !in " \t;#[" && b[t - 1] !in " \t" && (forall i :: q <= i < t ==> b[i] != '=')
    && (forall i :: t <= i < a ==> b[i] == ' ' || b[i] == '\t')
    && (forall i :: a < i < v ==> b[i] == ' ' || b[i] == '\t')
    && (forall i :: w <= i < e ==> b[i] == ' ' || b[i] == '\t')
    && (if v < w then b[v] !in " \t" && b[w - 1] !in " \t" else v == e)
  }

  lemma KeyScans(b: string, p: int, q: int, e: int, next: int, t: int, a: int, v: int, w: int)
    requires KeySpot(b, p, q, e, next, t, a, v, w)
    ensures 0 <= q < |b| && Scan(b, q, Equals) == a && TrimEnd(b, q, a) == t
  {
    ScanPast(b, q, a, Equals);
    assert !IsSpace(b[t - 1]);
    TrimExact(b, q, a, t);
  }

  lemma ValueScans(b: string, p: int, q: int, e: int, next: int, t: int, a: int, v: int, w: int)
    requires KeySpot(b, p, q, e, next, t, a, v, w)
    ensures F.Pieces(b, a, v, e, w, next)
  {
    assert v < w ==> !IsSpace(b[v]) && !IsSpace(b[w - 1]);
    ScanPast(b, a + 1, v, NotBlank);
    ScanPast(b, v, e, LineEnd);
    TrimExact(b, v, e, w);
  }

  lemma KeyStarts(b: string, p: int, q: int, e: int, next: int, t: int, a: int, v: int, w: int)
    requires KeySpot(b, p, q, e, next, t, a, v, w)
    ensures Spot(b, p, q, e, next) == true
    ensures 0 <= q < t <= a < v <= w <= |b| && a + 1 < |b| && b[a] == '='
    ensures !IsSpace(b[q]) && !IsComment(b[q]) && b[q] != '[' && b[q] != NUL
  {
  }

  lemma KeyIsFound(f: Format, b: string, p: int, q: int, e: int, next: int, section: string, comment: Option<string>,
                   t: int, a: int, v: int, w: int, key: string, value: string)
    requires KeySpot(b, p, q, e, next, t, a, v, w) == true
    requires 0 <= q <= t <= |b| && key == b[q..t] && 0 <= v <= w <= |b| && value == b[v..w]
    requires !(f.multiLine && IsMultiLineTag(value))
    ensures NextEntry(f, b, p, Named(section), comment) == KeyFound(section, key, Unquoted(f, value), comment, next)
  {
    KeyStarts(b, p, q, e, next, t, a, v, w);
    FromNewLine(f, b, p, q, e, next, section, comment);
    KeyScans(b, p, q, e, next, t, a, v, w);
    ValueScans(b, p, q, e, next, t, a, v, w);
    F.PiecesPlain(f, b, a, v, e, w, next);
    F.AtKey(f, b, q, Named(section), comment, a);
  }

  lemma TagBehind(b: string, v: int, w: int, tag: string)
    requires 0 <= v <= w <= |b| && b[v..w] == "<<<" + tag
    ensures w >= v + 3 && b[v + 3..w] == tag && IsMultiLineTag(b[v..w])
  {
    assert b[v + 3..w] == b[v..w][3..];
  }

  lemma SpreadIsFound(f: Format, b: string, p: int, q: int, e: int, next: int, section: string,
                      comment: Option<string>, t: int, a: int, v: int, w: int, key: string, tag: string,
                      r: (string, int))
    requires KeySpot(b, p, q, e, next, t, a, v, w) == true
    requires 0 <= q <= t <= |b| && key == b[q..t] && 0 <= v <= w <= |b| && b[v..w] == "<<<" + tag
    requires f.multiLine && 0 <= next < |b| && MultiLine(b, next, tag, f.noCase) == Some(r)
    ensures NextEntry(f, b, p, Named(section), comment) == KeyFound(section, key, r.0, comment, r.1)
  {
    KeyStarts(b, p, q, e, next, t, a, v, w);
    FromNewLine(f, b, p, q, e, next, section, comment);
    KeyScans(b, p, q, e, next, t, a, v, w);
    ValueScans(b, p, q, e, next, t, a, v, w);
    TagBehind(b, v, w, tag);
    F.PiecesTagged(f, b, a, v, e, w, next);
    F.AtKey(f, b, q, Named(section), comment, a);
  }

  // ------------------------------------------------------------------ the lines of a spread value

  lemma FoldKeepsPadding(noCase: bool, ch: char)
    ensures Fold(noCase, ch) == ' ' <==> ch == ' '
    ensures Fold(noCase, ch) == '\t' <==> ch == '\t'
  {
  }

  lemma SameEnds(f: Format, x: string, tag: string)
    requires Same(f.noCase, x, tag) && tag != "" && tag[|tag| - 1] !in " \t"
    ensures x != "" && x[|x| - 1] !in " \t"
  {
    SameIsFoldedEqual(f.noCase, x, tag);
    assert |Folded(f.noCase, x)| == |x| && |Folded(f.noCase, tag)| == |tag|;
    assert Fold(f.noCase, x[|x| - 1]) == Folded(f.noCase, x)[|x| - 1] == Fold(f.noCase, tag[|tag| - 1]);
    FoldKeepsPadding(f.noCase, x[|x| - 1]);
    FoldKeepsPadding(f.noCase, tag[|tag| - 1]);
  }

  lemma {:induction false} TrimmedIsPadding(b: string, lo: int, hi: int)
    requires 0 <= lo <= hi <= |b| && forall i :: lo <= i < hi ==> b[i] != '\n' && b[i] != '\r'
    ensures forall i :: TrimEnd(b, lo, hi) <= i < hi ==> b[i] == ' ' || b[i] == '\t'
    decreases hi - lo
  {
    if hi > lo && IsSpace(b[hi - 1]) {
      TrimmedIsPadding(b, lo, hi - 1);
    }
  }

  lemma TrimmedCloses(f: Format, b: string, p: int, e: int, tag: string, line: string, t: int)
    requires 0 <= p <= e <= |b| && b[p..e] == line && InLine(line) && t == TagEnd(b, p, e)
    requires Same(f.noCase, b[p..t], tag)
    ensures Closes(f, tag, line)
  {
    assert forall i :: p <= i < e ==> b[i] == line[i - p];
    if p < e {
      TrimmedIsPadding(b, p + 1, e);
    }
    assert b[p..t] == line[..t - p] && Padding(line[t - p..]);
  }

  lemma ClosesTrimmed(f: Format, b: string, p: int, e: int, tag: string, line: string)
    requires 0 <= p <= e <= |b| && b[p..e] == line && InLine(line)
    requires tag != "" && tag[|tag| - 1] !in " \t" && Closes(f, tag, line)
    ensures Same(f.noCase, b[p..TagEnd(b, p, e)], tag)
  {
    var k :| 0 <= k <= |line| && Padding(line[k..]) && Same(f.noCase, line[..k], tag);
    SameEnds(f, line[..k], tag);
    assert b[p..p + k] == b[p..e][..k] && line[k - 1] == b[p + k - 1];
    forall i | p + k <= i < e ensures IsSpace(b[i]) {
      assert b[i] == line[i - p] == line[k..][i - p - k];
    }
    assert line[k - 1] in line && !IsSpace(line[k - 1]);
    TrimStops(b, p, e, k);
  }

  lemma TrimStops(b: string, p: int, e: int, k: int)
    requires 0 <= p && 0 < k && p + k <= e <= |b|
    requires forall i :: p + k <= i < e ==> IsSpace(b[i])
    requires !IsSpace(b[p + k - 1])
    ensures TagEnd(b, p, e) == p + k
  {
    TrimExact(b, p + 1, e, p + k);
  }

  /** Reading compares with the tag just the lines that close. */
  lemma ClosesIff(f: Format, b: string, p: int, e: int, tag: string, line: string)
    requires 0 <= p <= e <= |b| && b[p..e] == line && InLine(line) && tag != "" && tag[|tag| - 1] !in " \t"
    ensures Same(f.noCase, b[p..TagEnd(b, p, e)], tag) <==> Closes(f, tag, line)
  {
    if Closes(f, tag, line) {
      ClosesTrimmed(f, b, p, e, tag, line);
    } else if Same(f.noCase, b[p..TagEnd(b, p, e)], tag) {
      TrimmedCloses(f, b, p, e, tag, line, TagEnd(b, p, e));
    }
  }
}
