/** What loading makes of a text that is given line by line: the calls of AddEntry, with the comments that belong to
    them. A clause that says `P(..) == true` states P as one fact, which the verifier does not unfold there. */
module IniGrammar {
  import opened Options
  import opened IniFormat
  import opened IniText
  import opened IniStore
  import opened IniLines
  import opened IniValues
  import D = IniDocument
  import F = IniFind
  import P = IniParse
  import S = IniSections

  /** One call of AddEntry. */
  datatype Call = Call(section: string, key: Option<string>, value: Option<string>, comment: Option<string>)

  function Apply(f: Format, st: Store, calls: seq<Call>): Store
    decreases |calls|
  {
    if calls == [] then st
    else
      Apply(f, S.AddEntry(f, st, calls[0].section, calls[0].key, calls[0].value, calls[0].comment, false), calls[1..])
  }

  // ------------------------------------------------------------------ the meaning of the lines

  /** How many blank lines stand in front. */
  function Blanks(ls: seq<Line>): (n: nat)
    ensures n <= |ls|
  {
    if ls == [] || !ls[0].body.Blank? then 0 else 1 + Blanks(ls[1..])
  }

  function Returns(n: nat): string {
    seq(n, i => '\n')
  }

  function RemarkText(l: Line): string
    requires l.body.Remark?
  {
    [l.body.mark] + l.body.text
  }

  /** The lines behind a comment line and the blank lines after it. */
  function Behind(ls: seq<Line>): (r: seq<Line>)
    requires ls != []
    ensures |r| < |ls|
  {
    ls[1..][Blanks(ls[1..])..]
  }

  predicate StartsComment(ls: seq<Line>) {
    ls != [] && ls[0].body.Remark?
  }

  /** The comment that starts with the first line, and the lines behind it: it ends with the last comment line that
      only comment lines and blank lines stand before. Each blank line leaves one more newline. */
  function Comment(ls: seq<Line>): (r: (string, seq<Line>))
    requires StartsComment(ls)
    ensures |r.1| < |ls|
    decreases |ls|
  {
    if StartsComment(Behind(ls)) then
      (RemarkText(ls[0]) + "\n" + Returns(Blanks(ls[1..])) + Comment(Behind(ls)).0, Comment(Behind(ls)).1)
    else (RemarkText(ls[0]), ls[1..])
  }

  /** A value in quotes is meant without them, where that is asked for. */
  function Meant(f: Format, value: string): string {
    if f.parseQuotes && |value| >= 2 && value[0] == '"' && value[|value| - 1] == '"' then value[1..|value| - 1]
    else value
  }

  /** The lines with line feeds between them. */
  function Joined(lines: seq<string>): string {
    if lines == [] then "" else if |lines| == 1 then lines[0] else lines[0] + "\n" + Joined(lines[1..])
  }

  /** The calls that the lines make: one for each header and each key. A comment waits for the next of them, unless
      another one comes first. */
  function Calls(f: Format, ls: seq<Line>, section: string, comment: Option<string>): seq<Call>
    decreases |ls|
  {
    if ls == [] then []
    else
      match ls[0].body
      case Remark(_, _) => Calls(f, Comment(ls).1, section, Some(Comment(ls).0))
      case Heading(_, name, _, _) => [Call(name, None, None, comment)] + Calls(f, ls[1..], name, None)
      case Key(key, _, _, value, _) =>
        [Call(section, Some(key), Some(Meant(f, value)), comment)] + Calls(f, ls[1..], section, None)
      case Spread(key, _, _, _, _, lines, _) =>
        [Call(section, Some(key), Some(Joined(lines)), comment)] + Calls(f, ls[1..], section, None)
      case _ => Calls(f, ls[1..], section, comment)
  }

  // ------------------------------------------------------------------ where the lines stand

  /** Where the lines start if nothing comes behind them. */
  function Place(b: string, ls: seq<Line>): int {
    |b| - 1 - |Text(ls)|
  }

  ghost predicate AllGood(f: Format, ls: seq<Line>) {
    forall i :: 0 <= i < |ls| ==> Good(f, ls[i])
  }

  ghost predicate Stands(f: Format, b: string, ls: seq<Line>) {
    Ended(b) && 0 <= Place(b, ls) && At(b, Place(b, ls), Text(ls)) && AllGood(f, ls)
  }

  /** Where the first line has its first other character, and its newline. */
  function Front(b: string, ls: seq<Line>): int {
    Place(b, ls) + if ls == [] then 0 else |ls[0].indent|
  }

  function EndOf(b: string, ls: seq<Line>): int
    requires ls != []
  {
    Front(b, ls) + |BodyText(ls[0].body)|
  }

  lemma InLineParts(a: string, b: string)
    requires InLine(a) && InLine(b)
    ensures InLine(a + b)
  {
  }

  lemma KeyInLine(key: string, before: string, behind: string, value: string, end: string)
    requires InLine(key) && Padding(before) && Padding(behind) && InLine(value) && Padding(end)
    ensures InLine(key + before + "=" + behind + value + end)
  {
    InLineParts(key, before);
    InLineParts(key + before, "=");
    InLineParts(key + before + "=", behind);
    InLineParts(key + before + "=" + behind, value);
    InLineParts(key + before + "=" + behind + value, end);
  }

  lemma NameInLine(before: string, name: string, behind: string, more: string)
    requires Padding(before) && InLine(name) && Padding(behind) && InLine(more)
    ensures InLine("[" + before + name + behind + "]" + more)
  {
    InLineParts("[", before);
    InLineParts("[" + before, name);
    InLineParts("[" + before + name, behind);
    InLineParts("[" + before + name + behind, "]");
    InLineParts("[" + before + name + behind + "]", more);
  }

  lemma BodyInLine(f: Format, body: Body)
    requires BodyGood(f, body)
    ensures InLine(BodyText(body))
  {
    match body
    case Blank =>
    case Remark(_, _) =>
    case Heading(before, name, behind, more) => NameInLine(before, name, behind, more);
    case Key(key, before, behind, value, end) => KeyInLine(key, before, behind, value, end);
    case Spread(key, before, behind, tag, end, _, _) =>
      InLineParts("<<<", tag);
      KeyInLine(key, before, behind, "<<<" + tag, end);
    case Other(_) =>
  }

  lemma SpotOf(b: string, p: int, indent: string, body: string, crlf: bool, q: int, e: int, next: int)
    requires Ended(b) && At(b, p, indent + body + NewLine(crlf)) && Padding(indent) && InLine(body)
    requires q == p + |indent| && e == q + |body| && next == e + |NewLine(crlf)| && next < |b|
    ensures Spot(b, p, q, e, next) && b[q..e] == body
  {
    AtParts(b, p, indent + body, NewLine(crlf));
    AtParts(b, p, indent, body);
    AtSlice(b, q, body);
    var nl := NewLine(crlf);
    assert b[e] == nl[0] && (crlf ==> b[e + 1] == nl[1]);
    forall i | p <= i < q ensures b[i] == ' ' || b[i] == '\t' {
      assert b[i] == indent[i - p];
    }
    forall i | q <= i < e ensures b[i] != '\n' && b[i] != '\r' && b[i] != '\0' {
      assert b[i] == body[i - q];
    }
  }

  lemma LineParts(b: string, p: int, l: Line, rest: string, next: int, after: int)
    requires At(b, p, LineText(l) + rest) && after == p + |LineText(l)| && next == after - |Below(l.body)|
    ensures At(b, p, l.indent + BodyText(l.body) + NewLine(l.crlf)) && At(b, next, Below(l.body)) && At(b, after, rest)
    ensures next == p + |l.indent| + |BodyText(l.body)| + |NewLine(l.crlf)|
  {
    AtParts(b, p, LineText(l), rest);
    AtParts(b, p, l.indent + BodyText(l.body) + NewLine(l.crlf), Below(l.body));
  }

  /** Where the parts of the first line are. */
  lemma LineSpots(f: Format, b: string, ls: seq<Line>, p: int, q: int, e: int, next: int)
    requires Stands(f, b, ls) && ls != [] && p == Place(b, ls) && q == Front(b, ls) && e == EndOf(b, ls)
    requires next == Place(b, ls[1..]) - |Below(ls[0].body)|
    ensures Spot(b, p, q, e, next) == true && b[q..e] == BodyText(ls[0].body)
    ensures Stands(f, b, ls[1..]) == true && Good(f, ls[0]) && At(b, next, Below(ls[0].body)) == true
  {
    var l := ls[0];
    assert Good(f, l);
    BodyInLine(f, l.body);
    LineParts(b, p, l, Text(ls[1..]), next, Place(b, ls[1..]));
    SpotOf(b, p, l.indent, BodyText(l.body), l.crlf, q, e, next);
  }

  lemma AllStand(f: Format, b: string, ls: seq<Line>, n: nat)
    requires Stands(f, b, ls) && n <= |ls|
    ensures Stands(f, b, ls[n..]) == true && Place(b, ls) <= Place(b, ls[n..])
  {
    if n > 0 {
      LineSpots(f, b, ls, Place(b, ls), Front(b, ls), EndOf(b, ls), Place(b, ls[1..]) - |Below(ls[0].body)|);
      AllStand(f, b, ls[1..], n - 1);
      assert ls[1..][n - 1..] == ls[n..];
    } else {
      assert ls[0..] == ls;
    }
  }

  // ------------------------------------------------------------------ comments

  lemma FrontChar(f: Format, b: string, ls: seq<Line>)
    requires Stands(f, b, ls) == true
    ensures 0 <= Front(b, ls) < |b|
    ensures ls == [] ==> b[Front(b, ls)] == NUL
    ensures ls != [] && !ls[0].body.Blank? ==>
      BodyText(ls[0].body) != "" && b[Front(b, ls)] == BodyText(ls[0].body)[0] && !IsSpace(b[Front(b, ls)])
        && (IsComment(b[Front(b, ls)]) <==> ls[0].body.Remark?)
  {
    if ls != [] {
      var p, q, e := Place(b, ls), Front(b, ls), EndOf(b, ls);
      var next := Place(b, ls[1..]) - |Below(ls[0].body)|;
      LineSpots(f, b, ls, p, q, e, next);
      assert Spot(b, p, q, e, next);
      var text := BodyText(ls[0].body);
      assert text != "" ==> b[q] == text[0];
    }
  }

  lemma {:induction false} PaddingSkipped(b: string, p: int, q: int, n: int)
    requires Ended(b) && 0 <= p <= q < |b| && n >= 0 && forall i :: p <= i < q ==> b[i] == ' ' || b[i] == '\t'
    ensures SkipBlank(b, p, n) == SkipBlank(b, q, n)
    decreases q - p
  {
    if p < q {
      PaddingSkipped(b, p + 1, q, n);
    }
  }

  lemma IndentSkipped(f: Format, b: string, ls: seq<Line>, n: int)
    requires Stands(f, b, ls) == true && n >= 0
    ensures 0 <= Place(b, ls) <= Front(b, ls) < |b| && SkipBlank(b, Place(b, ls), n) == SkipBlank(b, Front(b, ls), n)
  {
    FrontChar(f, b, ls);
    if ls != [] {
      var p, q, e := Place(b, ls), Front(b, ls), EndOf(b, ls);
      var next := Place(b, ls[1..]) - |Below(ls[0].body)|;
      LineSpots(f, b, ls, p, q, e, next);
      PaddingSkipped(b, p, q, n);
    }
  }

  lemma BlankSkipped(f: Format, b: string, ls: seq<Line>, n: int)
    requires Stands(f, b, ls) == true && n >= 0 && ls != [] && ls[0].body.Blank?
    ensures 0 <= Front(b, ls) < |b| && 0 <= Place(b, ls[1..]) < |b| && Stands(f, b, ls[1..]) == true
    ensures SkipBlank(b, Front(b, ls), n) == SkipBlank(b, Place(b, ls[1..]), n + 1)
  {
    var p, q, e, next := Place(b, ls), Front(b, ls), EndOf(b, ls), Place(b, ls[1..]);
    LineSpots(f, b, ls, p, q, e, next);
    SpotScans(b, p, q, e, next);
  }

  lemma {:induction false} BlanksSkipped(f: Format, b: string, ls: seq<Line>, n: int)
    requires Stands(f, b, ls) == true && n >= 0
    ensures 0 <= Place(b, ls) < |b|
    ensures SkipBlank(b, Place(b, ls), n) == (n + Blanks(ls), Front(b, ls[Blanks(ls)..]))
    decreases |ls|
  {
    FrontChar(f, b, ls);
    IndentSkipped(f, b, ls, n);
    if ls != [] && ls[0].body.Blank? {
      BlankSkipped(f, b, ls, n);
      BlanksSkipped(f, b, ls[1..], n + 1);
      assert ls[1..][Blanks(ls[1..])..] == ls[Blanks(ls)..];
    } else {
      assert ls[0..] == ls;
    }
  }

  lemma {:induction false} ReturnsAre(n: nat)
    ensures NewLines(n) == Returns(n)
  {
    if n > 0 {
      ReturnsAre(n - 1);
      assert Returns(n) == Returns(n - 1) + "\n";
    }
  }

  /** One line of a comment, and whether another one follows behind white space, which is at r. */
  lemma CommentStep(b: string, p: int, e: int, next: int, r: (int, int))
    requires Ended(b) && 0 <= p < e < next < |b| && IsComment(b[p]) && e == Scan(b, p, LineEnd) && b[e] != NUL
    requires next == AfterNewLine(b, e) && r == SkipBlank(b, next, 0)
    ensures Comments(b, p, true) ==
      if IsComment(b[r.1]) then
        (b[p..e] + "\n" + NewLines(r.0) + Comments(b, r.1, true).0, Comments(b, r.1, true).1)
      else (b[p..e], next)
  {
    if IsComment(b[next]) {
      assert r == (0, next);
      assert b[p..e] + "\n" + NewLines(0) == b[p..e] + "\n";
    }
  }

  lemma BehindStands(f: Format, b: string, ls: seq<Line>, next: int)
    requires Stands(f, b, ls) == true && ls != [] && next == Place(b, ls[1..])
    requires Stands(f, b, ls[1..]) == true
    ensures Stands(f, b, Behind(ls)) == true && 0 <= next < |b|
    ensures SkipBlank(b, next, 0) == (Blanks(ls[1..]), Front(b, Behind(ls)))
    ensures 0 <= Front(b, Behind(ls)) < |b|
    ensures IsComment(b[Front(b, Behind(ls))]) <==> StartsComment(Behind(ls))
  {
    BlanksSkipped(f, b, ls[1..], 0);
    AllStand(f, b, ls[1..], Blanks(ls[1..]));
    FrontChar(f, b, Behind(ls));
    NotBlank(ls[1..]);
  }

  lemma RemarkStep(f: Format, b: string, ls: seq<Line>, q: int, next: int, s: int)
    requires Stands(f, b, ls) == true && ls != [] && ls[0].body.Remark? && q == Front(b, ls)
    requires next == Place(b, ls[1..]) && s == Front(b, Behind(ls))
    ensures 0 <= q < |b| && IsComment(b[q]) && Stands(f, b, Behind(ls)) == true
    ensures if StartsComment(Behind(ls)) then
        0 <= s < |b| && IsComment(b[s]) && Comments(b, q, true)
          == (RemarkText(ls[0]) + "\n" + Returns(Blanks(ls[1..])) + Comments(b, s, true).0, Comments(b, s, true).1)
      else Comments(b, q, true) == (RemarkText(ls[0]), next)
  {
    var p, e := Place(b, ls), EndOf(b, ls);
    FrontChar(f, b, ls);
    LineSpots(f, b, ls, p, q, e, next);
    assert Spot(b, p, q, e, next);
    SpotScans(b, p, q, e, next);
    BehindStands(f, b, ls, next);
    CommentStep(b, q, e, next, (Blanks(ls[1..]), s));
    ReturnsAre(Blanks(ls[1..]));
  }

  lemma {:induction false} CommentIs(f: Format, b: string, ls: seq<Line>)
    requires Stands(f, b, ls) == true && StartsComment(ls)
    ensures 0 <= Front(b, ls) < |b| && IsComment(b[Front(b, ls)]) && Stands(f, b, Comment(ls).1) == true
    ensures Comments(b, Front(b, ls), true) == (Comment(ls).0, Place(b, Comment(ls).1))
    decreases |ls|
  {
    RemarkStep(f, b, ls, Front(b, ls), Place(b, ls[1..]), Front(b, Behind(ls)));
    if StartsComment(Behind(ls)) {
      CommentIs(f, b, Behind(ls));
    } else {
      AllStand(f, b, ls, 1);
    }
  }

  lemma {:induction false} NotBlank(ls: seq<Line>)
    ensures ls[Blanks(ls)..] != [] ==> !ls[Blanks(ls)..][0].body.Blank?
  {
    if ls != [] && ls[0].body.Blank? {
      NotBlank(ls[1..]);
      assert ls[1..][Blanks(ls[1..])..] == ls[Blanks(ls)..];
    }
  }

  // ------------------------------------------------------------------ headers and keys

  lemma PaddingAt(b: string, p: int, pad: string, q: int)
    requires At(b, p, pad) && Padding(pad) && q == p + |pad|
    ensures forall i :: p <= i < q ==> b[i] == ' ' || b[i] == '\t'
  {
    forall i | p <= i < q ensures b[i] == ' ' || b[i] == '\t' {
      assert b[i] == pad[i - p];
    }
  }

  lemma BareAt(b: string, p: int, text: string, q: int)
    requires At(b, p, text) && Bare(text) && q == p + |text|
    ensures text != "" ==> b[p] == text[0] && b[p] !in " \t" && b[q - 1] !in " \t"
    ensures b[p..q] == text
  {
    AtSlice(b, p, text);
    if text != "" {
      assert b[p] == text[0] && b[q - 1] == text[|text| - 1];
    }
  }

  lemma WithoutAt(b: string, p: int, text: string, q: int, ch: char)
    requires At(b, p, text) && ch !in text && q == p + |text|
    ensures forall i :: p <= i < q ==> b[i] != ch
  {
    forall i | p <= i < q ensures b[i] != ch {
      assert b[i] == text[i - p];
    }
  }

  /** Where the parts of a header are: the brackets, and what is before and behind the name. */
  lemma HeaderParts(b: string, q: int, before: string, name: string, behind: string, more: string, n: int, t: int,
                    c: int)
    requires At(b, q, "[" + before + name + behind + "]" + more)
    requires n == q + 1 + |before| && t == n + |name| && c == t + |behind|
    ensures At(b, q + 1, before) && At(b, n, name) && At(b, t, behind) && b[q] == '[' && b[c] == ']'
    ensures c + 1 + |more| == q + |"[" + before + name + behind + "]" + more|
  {
    AtParts(b, q, "[" + before + name + behind + "]", more);
    AtParts(b, q, "[" + before + name + behind, "]");
    AtParts(b, q, "[" + before + name, behind);
    AtParts(b, q, "[" + before, name);
    AtParts(b, q, "[", before);
    assert b[q] == "["[0] && b[c] == "]"[0];
  }

  lemma HeaderStands(b: string, p: int, q: int, e: int, next: int, before: string, name: string, behind: string,
                     more: string, n: int, t: int, c: int)
    requires Spot(b, p, q, e, next) && b[q..e] == "[" + before + name + behind + "]" + more
    requires Padding(before) && Bare(name) && ']' !in name && Padding(behind) && InLine(more)
    requires c == q + 1 + |before| + |name| + |behind| && n == (if name == "" then c else q + 1 + |before|)
    requires t == n + |name|
    ensures HeaderSpot(b, p, q, e, next, n, t, c) == true && b[n..t] == name
  {
    var m := q + 1 + |before|;
    assert At(b, q, "[" + before + name + behind + "]" + more);
    HeaderParts(b, q, before, name, behind, more, m, m + |name|, c);
    PaddingAt(b, q + 1, before, m);
    PaddingAt(b, m + |name|, behind, c);
    BareAt(b, m, name, m + |name|);
    WithoutAt(b, m, name, m + |name|, ']');
  }

  /** Where the parts of a key line are. */
  lemma KeyParts(b: string, q: int, key: string, before: string, behind: string, value: string, end: string, t: int,
                 a: int, v: int, w: int)
    requires At(b, q, key + before + "=" + behind + value + end)
    requires t == q + |key| && a == t + |before| && v == a + 1 + |behind| && w == v + |value|
    ensures At(b, q, key) && At(b, t, before) && b[a] == '=' && At(b, a + 1, behind) && At(b, v, value) && At(b, w, end)
    ensures w + |end| == q + |key + before + "=" + behind + value + end|
  {
    AtParts(b, q, key + before + "=" + behind + value, end);
    AtParts(b, q, key + before + "=" + behind, value);
    AtParts(b, q, key + before + "=", behind);
    AtParts(b, q, key + before, "=");
    AtParts(b, q, key, before);
    assert b[a] == "="[0];
  }

  lemma KeyStands(b: string, p: int, q: int, e: int, next: int, key: string, before: string, behind: string,
                  value: string, end: string, t: int, a: int, v: int, w: int)
    requires Spot(b, p, q, e, next) && b[q..e] == key + before + "=" + behind + value + end
    requires Bare(key) && key != "" && key[0] !in ";#[" && '=' !in key && Padding(before) && Padding(behind)
    requires Bare(value) && Padding(end)
    requires t == q + |key| && a == t + |before| && w == v + |value|
    requires v == if value == "" then e else a + 1 + |behind|
    ensures KeySpot(b, p, q, e, next, t, a, v, w) == true && b[q..t] == key && b[v..w] == value
  {
    var u := a + 1 + |behind|;
    assert At(b, q, key + before + "=" + behind + value + end);
    KeyParts(b, q, key, before, behind, value, end, t, a, u, u + |value|);
    PaddingAt(b, t, before, a);
    PaddingAt(b, a + 1, behind, u);
    PaddingAt(b, u + |value|, end, e);
    BareAt(b, q, key, t);
    BareAt(b, u, value, u + |value|);
    WithoutAt(b, q, key, t, '=');
  }

  // ------------------------------------------------------------------ what a line makes of the search

  function Next(f: Format, b: string, ls: seq<Line>, section: string, comment: Option<string>): P.Found
    requires Ended(b) && 0 <= Place(b, ls) < |b|
  {
    P.NextEntry(f, b, Place(b, ls), P.Named(section), comment)
  }

  lemma OtherAt(f: Format, b: string, p: int, q: int, e: int, next: int, text: string, section: string,
                comment: Option<string>)
    requires Spot(b, p, q, e, next) && b[q..e] == text && BodyGood(f, Other(text))
    ensures P.NextEntry(f, b, p, P.Named(section), comment) == P.NextEntry(f, b, next, P.Named(section), comment)
  {
    assert b[q] == text[0];
    if '=' !in text {
      assert At(b, q, text);
      WithoutAt(b, q, text, e, '=');
    }
    OtherIsSkipped(f, b, p, q, e, next, section, comment);
  }

  lemma SkipsLine(f: Format, b: string, ls: seq<Line>, section: string, comment: Option<string>)
    requires Stands(f, b, ls) == true && ls != [] && (ls[0].body.Blank? || ls[0].body.Other?)
    ensures 0 <= Place(b, ls[1..]) < |b| && Stands(f, b, ls[1..]) == true
    ensures Next(f, b, ls, section, comment) == Next(f, b, ls[1..], section, comment)
  {
    var p, q, e, next := Place(b, ls), Front(b, ls), EndOf(b, ls), Place(b, ls[1..]);
    LineSpots(f, b, ls, p, q, e, next);
    if ls[0].body.Blank? {
      BlankIsSkipped(f, b, p, q, next, section, comment);
    } else {
      OtherAt(f, b, p, q, e, next, ls[0].body.text, section, comment);
    }
  }

  lemma StandsPlace(f: Format, b: string, ls: seq<Line>)
    requires Stands(f, b, ls) == true
    ensures 0 <= Place(b, ls) < |b|
  {
  }

  lemma ReadsComment(f: Format, b: string, ls: seq<Line>, section: string, comment: Option<string>)
    requires Stands(f, b, ls) == true && StartsComment(ls)
    ensures var rest := Comment(ls).1;
      && 0 <= Place(b, rest) < |b| && Stands(f, b, rest) == true
      && Next(f, b, ls, section, comment) == Next(f, b, rest, section, Some(Comment(ls).0))
  {
    var p, q, e, next := Place(b, ls), Front(b, ls), EndOf(b, ls), Place(b, ls[1..]);
    LineSpots(f, b, ls, p, q, e, next);
    FromNewLine(f, b, p, q, e, next, section, comment);
    CommentIs(f, b, ls);
    StandsPlace(f, b, Comment(ls).1);
    F.AtComment(f, b, q, P.Named(section), comment);
  }

  lemma HeaderAt(f: Format, b: string, p: int, q: int, e: int, next: int, h: Body, section: string,
                 comment: Option<string>)
    requires Spot(b, p, q, e, next) == true && 0 <= q <= e <= |b| && h.Heading?
    requires b[q..e] == BodyText(h) && BodyGood(f, h) == true
    ensures 0 <= p < |b| && P.NextEntry(f, b, p, P.Named(section), comment) == P.SectionFound(h.name, comment, e)
  {
    var c := q + 1 + |h.before| + |h.name| + |h.behind|;
    var n := if h.name == "" then c else q + 1 + |h.before|;
    HeaderStands(b, p, q, e, next, h.before, h.name, h.behind, h.more, n, n + |h.name|, c);
    HeaderIsFound(f, b, p, q, e, next, section, comment, n, n + |h.name|, c);
  }

  lemma FindsHeader(f: Format, b: string, ls: seq<Line>, section: string, comment: Option<string>)
    requires Stands(f, b, ls) == true && ls != [] && ls[0].body.Heading?
    ensures 0 <= Place(b, ls[1..]) < |b| && Stands(f, b, ls[1..]) == true && 0 <= EndOf(b, ls) < |b|
    ensures Next(f, b, ls, section, comment) == P.SectionFound(ls[0].body.name, comment, EndOf(b, ls))
    ensures P.NextEntry(f, b, EndOf(b, ls), P.Named(ls[0].body.name), None)
      == Next(f, b, ls[1..], ls[0].body.name, None)
  {
    var p, q, e, next := Place(b, ls), Front(b, ls), EndOf(b, ls), Place(b, ls[1..]);
    LineSpots(f, b, ls, p, q, e, next);
    HeaderAt(f, b, p, q, e, next, ls[0].body, section, comment);
    FromNewLine(f, b, p, q, e, next, ls[0].body.name, None);
  }

  lemma KeyAt(f: Format, b: string, p: int, q: int, e: int, next: int, k: Body, section: string,
              comment: Option<string>)
    requires Spot(b, p, q, e, next) == true && 0 <= q <= e <= |b| && k.Key?
    requires b[q..e] == BodyText(k) && BodyGood(f, k) == true
    ensures 0 <= p < |b|
    ensures P.NextEntry(f, b, p, P.Named(section), comment)
      == P.KeyFound(section, k.key, Meant(f, k.value), comment, next)
  {
    var t, a := q + |k.key|, q + |k.key| + |k.before|;
    var v := if k.value == "" then e else a + 1 + |k.behind|;
    KeyStands(b, p, q, e, next, k.key, k.before, k.behind, k.value, k.end, t, a, v, v + |k.value|);
    KeyIsFound(f, b, p, q, e, next, section, comment, t, a, v, v + |k.value|, k.key, k.value);
  }

  lemma FindsKey(f: Format, b: string, ls: seq<Line>, section: string, comment: Option<string>)
    requires Stands(f, b, ls) == true && ls != [] && ls[0].body.Key?
    ensures 0 <= Place(b, ls[1..]) < |b| && Stands(f, b, ls[1..]) == true
    ensures Next(f, b, ls, section, comment)
      == P.KeyFound(section, ls[0].body.key, Meant(f, ls[0].body.value), comment, Place(b, ls[1..]))
  {
    var p, q, e, next := Place(b, ls), Front(b, ls), EndOf(b, ls), Place(b, ls[1..]);
    LineSpots(f, b, ls, p, q, e, next);
    KeyAt(f, b, p, q, e, next, ls[0].body, section, comment);
  }

  // ------------------------------------------------------------------ values on several lines

  lemma RawStep(b: string, p: int, line: string, rest: string, e: int, next: int)
    requires Ended(b) && At(b, p, line + "\n" + rest) && InLine(line) && e == p + |line| && next == e + 1 < |b|
    ensures 0 <= p <= e && Scan(b, p, LineEnd) == e && b[e] == '\n' && b[p..e] == line && At(b, next, rest)
  {
    AtParts(b, p, line + "\n", rest);
    AtParts(b, p, line, "\n");
    AtSlice(b, p, line);
    assert b[e] == "\n"[0];
    forall i | p <= i < e ensures !Stops(LineEnd, b[i]) {
      assert b[i] == line[i - p];
    }
    ScanPast(b, p, e, LineEnd);
  }

  /** A line of the value that does not close it. */
  lemma LineGoesOn(f: Format, b: string, p: int, tag: string, line: string, rest: string, e: int, next: int, r: Block)
    requires Ended(b) && At(b, p, line + "\n" + rest) == true && e == p + |line| && next == e + 1 < |b|
    requires InLine(line) && !Closes(f, tag, line) && tag != "" && tag[|tag| - 1] !in " \t"
    requires 0 <= next && r == Lines(b, next, tag, f.noCase, false)
    ensures 0 <= p < |b| && Lines(b, p, tag, f.noCase, false) == r.(text := line + "\n" + r.text)
  {
    RawStep(b, p, line, rest, e, next);
    ClosesIff(f, b, p, e, tag, line);
    assert AfterNewLine(b, e) == next != e + 2;
  }

  lemma LineCloses(f: Format, b: string, p: int, tag: string, line: string, e: int, next: int)
    requires Ended(b) && At(b, p, line + "\n" + "") == true && e == p + |line| && next == e + 1 < |b|
    requires InLine(line) && Closes(f, tag, line) && tag != "" && tag[|tag| - 1] !in " \t"
    ensures 0 <= p < |b| && Lines(b, p, tag, f.noCase, false) == Tagged([], p, next)
  {
    RawStep(b, p, line, "", e, next);
    ClosesIff(f, b, p, e, tag, line);
  }

  lemma RawSplits(lines: seq<string>, rest: string)
    requires lines != []
    ensures Raw(lines) + rest == lines[0] + "\n" + (Raw(lines[1..]) + rest)
    ensures |Raw(lines)| == |lines[0]| + 1 + |Raw(lines[1..])|
  {
  }

  lemma RawAt(b: string, p: int, lines: seq<string>, rest: string, next: int)
    requires lines != [] && At(b, p, Raw(lines) + rest) == true && next == p + |lines[0]| + 1
    ensures At(b, p, lines[0] + "\n" + (Raw(lines[1..]) + rest)) == true && At(b, next, Raw(lines[1..]) + rest) == true
    ensures 0 <= next && next + |Raw(lines[1..]) + rest| == p + |Raw(lines) + rest|
  {
    RawSplits(lines, rest);
    AtParts(b, p, lines[0] + "\n", Raw(lines[1..]) + rest);
  }

  /** None of the lines closes the value. */
  ghost predicate AllOpen(f: Format, tag: string, lines: seq<string>) {
    forall i :: 0 <= i < |lines| ==> InLine(lines[i]) && !Closes(f, tag, lines[i])
  }

  lemma OpenTail(f: Format, tag: string, lines: seq<string>)
    requires AllOpen(f, tag, lines) && lines != []
    ensures AllOpen(f, tag, lines[1..]) == true && InLine(lines[0]) && !Closes(f, tag, lines[0])
  {
  }

  /** The lines up to the one that closes stand at p. */
  ghost predicate RawStands(f: Format, b: string, p: int, tag: string, lines: seq<string>, closing: string, at: int,
                            next: int) {
    && Ended(b) && At(b, p, Raw(lines) + (closing + "\n" + "")) && AllOpen(f, tag, lines)
    && at == p + |Raw(lines)| && next == at + |closing| + 1 < |b|
  }

  lemma RawNext(f: Format, b: string, p: int, tag: string, lines: seq<string>, closing: string, at: int, next: int,
                e: int, mid: int)
    requires RawStands(f, b, p, tag, lines, closing, at, next) && lines != [] && e == p + |lines[0]| && mid == e + 1
    ensures RawStands(f, b, mid, tag, lines[1..], closing, at, next) == true && 0 <= mid < |b|
    ensures At(b, p, lines[0] + "\n" + (Raw(lines[1..]) + (closing + "\n" + ""))) == true
    ensures InLine(lines[0]) && !Closes(f, tag, lines[0])
  {
    OpenTail(f, tag, lines);
    RawSplits(lines, closing + "\n" + "");
    RawAt(b, p, lines, closing + "\n" + "", mid);
  }

  lemma RawDone(f: Format, b: string, p: int, tag: string, closing: string, at: int, next: int)
    requires RawStands(f, b, p, tag, [], closing, at, next)
    ensures At(b, p, closing + "\n" + "") == true && at == p && next == p + |closing| + 1 && Ended(b) && next < |b|
  {
    assert Raw([]) + (closing + "\n" + "") == closing + "\n" + "";
  }

  lemma {:induction false} LinesAre(f: Format, b: string, p: int, tag: string, lines: seq<string>, closing: string,
                                    at: int, next: int, r: Block)
    requires RawStands(f, b, p, tag, lines, closing, at, next) == true && tag != "" && tag[|tag| - 1] !in " \t"
    requires InLine(closing) && Closes(f, tag, closing) == true && r == Tagged(Raw(lines), at, next)
    ensures Ended(b) && 0 <= p < |b| && Lines(b, p, tag, f.noCase, false) == r
    decreases |lines|
  {
    if lines == [] {
      RawDone(f, b, p, tag, closing, at, next);
      LineCloses(f, b, p, tag, closing, next - 1, next);
    } else {
      var e := p + |lines[0]|;
      var mid, rest := e + 1, Tagged(Raw(lines[1..]), at, next);
      RawNext(f, b, p, tag, lines, closing, at, next, e, mid);
      LinesAre(f, b, mid, tag, lines[1..], closing, at, next, rest);
      LineGoesOn(f, b, p, tag, lines[0], Raw(lines[1..]) + (closing + "\n" + ""), e, mid, rest);
    }
  }

  lemma {:induction false} RawIsJoined(lines: seq<string>)
    requires lines != []
    ensures Raw(lines) == Joined(lines) + "\n"
    decreases |lines|
  {
    if |lines| > 1 {
      RawIsJoined(lines[1..]);
    } else {
      assert lines[1..] == [] && Raw([]) == "";
    }
  }

  lemma SpreadValueIs(f: Format, b: string, p: int, tag: string, lines: seq<string>, closing: string, next: int)
    requires Ended(b) && At(b, p, Raw(lines) + (closing + "\n")) && tag != "" && tag[|tag| - 1] !in " \t"
    requires lines != [] && forall i :: 0 <= i < |lines| ==> InLine(lines[i]) && !Closes(f, tag, lines[i])
    requires InLine(closing) && Closes(f, tag, closing)
    requires next == p + |Raw(lines) + (closing + "\n")| < |b|
    ensures 0 <= p < |b| && MultiLine(b, p, tag, f.noCase) == Some((Joined(lines), next))
  {
    assert closing + "\n" == closing + "\n" + "";
    LinesAre(f, b, p, tag, lines, closing, p + |Raw(lines)|, next, Tagged(Raw(lines), p + |Raw(lines)|, next));
    RawIsJoined(lines);
    assert (Joined(lines) + "\n")[..|Joined(lines) + "\n"| - 1] == Joined(lines);
  }

  lemma SpreadAt(f: Format, b: string, p: int, q: int, e: int, next: int, k: Body, section: string,
                 comment: Option<string>, after: int)
    requires Spot(b, p, q, e, next) == true && 0 <= q <= e <= |b| && k.Spread?
    requires b[q..e] == BodyText(k) && BodyGood(f, k) == true
    requires 0 <= next < |b| && MultiLine(b, next, k.tag, f.noCase) == Some((Joined(k.lines), after))
    ensures 0 <= p < |b|
    ensures P.NextEntry(f, b, p, P.Named(section), comment)
      == P.KeyFound(section, k.key, Joined(k.lines), comment, after)
  {
    var t, a, value := q + |k.key|, q + |k.key| + |k.before|, "<<<" + k.tag;
    var v := a + 1 + |k.behind|;
    assert Bare(value);
    KeyStands(b, p, q, e, next, k.key, k.before, k.behind, value, k.end, t, a, v, v + |value|);
    SpreadIsFound(f, b, p, q, e, next, section, comment, t, a, v, v + |value|, k.key, k.tag, (Joined(k.lines), after));
  }

  lemma FindsSpread(f: Format, b: string, ls: seq<Line>, section: string, comment: Option<string>)
    requires Stands(f, b, ls) == true && ls != [] && ls[0].body.Spread?
    ensures 0 <= Place(b, ls[1..]) < |b| && Stands(f, b, ls[1..]) == true
    ensures Next(f, b, ls, section, comment)
      == P.KeyFound(section, ls[0].body.key, Joined(ls[0].body.lines), comment, Place(b, ls[1..]))
  {
    var p, q, e, k := Place(b, ls), Front(b, ls), EndOf(b, ls), ls[0].body;
    var next := Place(b, ls[1..]) - |Below(k)|;
    LineSpots(f, b, ls, p, q, e, next);
    SpreadValueIs(f, b, next, k.tag, k.lines, k.closing, Place(b, ls[1..]));
    SpreadAt(f, b, p, q, e, next, k, section, comment, Place(b, ls[1..]));
  }

  // ------------------------------------------------------------------ the whole text

  /** Loading goes on from p with a comment that waits. */
  function LoadOn(f: Format, b: string, p: int, section: string, comment: Option<string>, st: Store): Store
    requires Ended(b) && 0 <= p < |b|
  {
    match P.NextEntry(f, b, p, P.Named(section), comment)
    case NoMore => st
    case SectionFound(name, c, next) => D.LoadFrom(f, b, next, name, S.AddEntry(f, st, name, None, None, c, false))
    case KeyFound(name, key, value, c, next) =>
      D.LoadFrom(f, b, next, name, S.AddEntry(f, st, name, Some(key), Some(value), c, false))
  }

  lemma LoadOnIsLoad(f: Format, b: string, p: int, section: string, st: Store)
    requires Ended(b) && 0 <= p < |b|
    ensures LoadOn(f, b, p, section, None, st) == D.LoadFrom(f, b, p, section, st)
  {
  }

  lemma AppliesFirst(f: Format, st: Store, call: Call, calls: seq<Call>)
    ensures Apply(f, st, [call] + calls)
      == Apply(f, S.AddEntry(f, st, call.section, call.key, call.value, call.comment, false), calls)
  {
    assert ([call] + calls)[1..] == calls;
  }

  lemma NothingLoaded(f: Format, b: string, section: string, comment: Option<string>, st: Store)
    requires Ended(b)
    ensures LoadOn(f, b, |b| - 1, section, comment, st) == st
  {
    assert b[|b| - 1] == NUL;
  }

  lemma HeaderLoads(f: Format, b: string, ls: seq<Line>, section: string, comment: Option<string>, st: Store, t: Store)
    requires Stands(f, b, ls) == true && ls != [] && ls[0].body.Heading?
    requires t == S.AddEntry(f, st, ls[0].body.name, None, None, comment, false)
    ensures 0 <= Place(b, ls) < |b| && 0 <= Place(b, ls[1..]) < |b|
    ensures LoadOn(f, b, Place(b, ls), section, comment, st)
      == LoadOn(f, b, Place(b, ls[1..]), ls[0].body.name, None, t)
  {
    FindsHeader(f, b, ls, section, comment);
    LoadOnIsLoad(f, b, EndOf(b, ls), ls[0].body.name, t);
  }

  lemma KeyLoads(f: Format, b: string, ls: seq<Line>, section: string, comment: Option<string>, st: Store, t: Store,
                 key: string, value: string)
    requires Stands(f, b, ls) == true && ls != [] && 0 <= Place(b, ls[1..]) < |b|
    requires Next(f, b, ls, section, comment) == P.KeyFound(section, key, value, comment, Place(b, ls[1..]))
    requires t == S.AddEntry(f, st, section, Some(key), Some(value), comment, false)
    ensures LoadOn(f, b, Place(b, ls), section, comment, st) == LoadOn(f, b, Place(b, ls[1..]), section, None, t)
  {
    LoadOnIsLoad(f, b, Place(b, ls[1..]), section, t);
  }

  /** A header or a key makes one call. */
  lemma EntryLoads(f: Format, b: string, ls: seq<Line>, section: string, comment: Option<string>, st: Store)
    returns (call: Call, name: string)
    requires Stands(f, b, ls) == true && ls != [] && (ls[0].body.Heading? || ls[0].body.Key? || ls[0].body.Spread?)
    ensures 0 <= Place(b, ls) < |b| && 0 <= Place(b, ls[1..]) < |b| && Stands(f, b, ls[1..]) == true
    ensures var t := S.AddEntry(f, st, call.section, call.key, call.value, call.comment, false);
      LoadOn(f, b, Place(b, ls), section, comment, st) == LoadOn(f, b, Place(b, ls[1..]), name, None, t)
    ensures Calls(f, ls, section, comment) == [call] + Calls(f, ls[1..], name, None)
  {
    var body := ls[0].body;
    if body.Heading? {
      call, name := Call(body.name, None, None, comment), body.name;
      FindsHeader(f, b, ls, section, comment);
      HeaderLoads(f, b, ls, section, comment, st, S.AddEntry(f, st, name, None, None, comment, false));
    } else {
      var value := if body.Key? then Meant(f, body.value) else Joined(body.lines);
      call, name := Call(section, Some(body.key), Some(value), comment), section;
      if body.Key? {
        FindsKey(f, b, ls, section, comment);
      } else {
        FindsSpread(f, b, ls, section, comment);
      }
      KeyLoads(f, b, ls, section, comment, st, S.AddEntry(f, st, section, Some(body.key), Some(value), comment, false),
               body.key, value);
    }
  }

  /** Loading a text of such lines makes the calls of its lines, in their order and with their comments. */
  lemma {:induction false} LinesLoad(f: Format, b: string, ls: seq<Line>, section: string, comment: Option<string>,
                                     st: Store)
    requires Stands(f, b, ls) == true
    ensures 0 <= Place(b, ls) < |b|
    ensures LoadOn(f, b, Place(b, ls), section, comment, st) == Apply(f, st, Calls(f, ls, section, comment))
    decreases |ls|
  {
    if ls == [] {
      NothingLoaded(f, b, section, comment, st);
    } else if ls[0].body.Remark? {
      ReadsComment(f, b, ls, section, comment);
      LinesLoad(f, b, Comment(ls).1, section, Some(Comment(ls).0), st);
    } else if ls[0].body.Blank? || ls[0].body.Other? {
      SkipsLine(f, b, ls, section, comment);
      LinesLoad(f, b, ls[1..], section, comment, st);
    } else {
      var call, name := EntryLoads(f, b, ls, section, comment, st);
      LinesLoad(f, b, ls[1..], name, None,
                S.AddEntry(f, st, call.section, call.key, call.value, call.comment, false));
      AppliesFirst(f, st, call, Calls(f, ls[1..], name, None));
    }
  }

  // ------------------------------------------------------------------ the file comment

  /** The comment of the file: the comment lines at the start that begin at once and stand together. */
  function Leading(ls: seq<Line>): (r: (string, seq<Line>))
    requires StartsComment(ls)
    ensures |r.1| < |ls|
    decreases |ls|
  {
    if HasLeading(ls[1..]) then (RemarkText(ls[0]) + "\n" + Leading(ls[1..]).0, Leading(ls[1..]).1)
    else (RemarkText(ls[0]), ls[1..])
  }

  predicate HasLeading(ls: seq<Line>) {
    ls != [] && ls[0].body.Remark? && ls[0].indent == ""
  }

  lemma LeadingStep(b: string, p: int, e: int, next: int)
    requires Ended(b) && 0 <= p < e < next < |b| && IsComment(b[p]) && e == Scan(b, p, LineEnd) && b[e] != NUL
    requires next == AfterNewLine(b, e)
    ensures Comments(b, p, false) ==
      if IsComment(b[next]) then (b[p..e] + "\n" + Comments(b, next, false).0, Comments(b, next, false).1)
      else (b[p..e], next)
  {
  }

  lemma StartChar(f: Format, b: string, ls: seq<Line>)
    requires Stands(f, b, ls) == true
    ensures 0 <= Place(b, ls) < |b| && (IsComment(b[Place(b, ls)]) <==> HasLeading(ls))
  {
    FrontChar(f, b, ls);
    if ls != [] {
      var p, q, e := Place(b, ls), Front(b, ls), EndOf(b, ls);
      var next := Place(b, ls[1..]) - |Below(ls[0].body)|;
      LineSpots(f, b, ls, p, q, e, next);
      assert Spot(b, p, q, e, next);
    }
  }

  lemma RemarkSpot(f: Format, b: string, ls: seq<Line>, e: int, next: int)
    requires Stands(f, b, ls) == true && HasLeading(ls) && e == EndOf(b, ls) && next == Place(b, ls[1..])
    ensures 0 <= Place(b, ls) < e < next < |b| && e == Scan(b, Place(b, ls), LineEnd) && b[e] != NUL
    ensures IsComment(b[Place(b, ls)]) && next == AfterNewLine(b, e) && b[Place(b, ls)..e] == RemarkText(ls[0])
    ensures Stands(f, b, ls[1..]) == true
  {
    var p := Place(b, ls);
    StartChar(f, b, ls);
    LineSpots(f, b, ls, p, p, e, next);
    SpotScans(b, p, p, e, next);
    assert Spot(b, p, p, e, next);
  }

  lemma {:induction false} LeadingIs(f: Format, b: string, ls: seq<Line>)
    requires Stands(f, b, ls) == true && HasLeading(ls)
    ensures 0 <= Place(b, ls) < |b| && IsComment(b[Place(b, ls)])
    ensures Comments(b, Place(b, ls), false) == (Leading(ls).0, Place(b, Leading(ls).1))
    ensures Stands(f, b, Leading(ls).1) == true
    decreases |ls|
  {
    var e, next := EndOf(b, ls), Place(b, ls[1..]);
    RemarkSpot(f, b, ls, e, next);
    StartChar(f, b, ls[1..]);
    LeadingStep(b, Place(b, ls), e, next);
    if HasLeading(ls[1..]) {
      LeadingIs(f, b, ls[1..]);
    }
  }

  /** The same for a whole text, with the comment of the file if there is none yet. */
  lemma TextLoads(f: Format, ls: seq<Line>, st: Store, fileComment: Option<string>)
    requires AllGood(f, ls)
    ensures D.LoadPlain(f, Text(ls), st, fileComment) ==
      if fileComment.None? && HasLeading(ls) then
        (Apply(f, st, Calls(f, Leading(ls).1, "", None)), Some(Leading(ls).0))
      else (Apply(f, st, Calls(f, ls, "", None)), fileComment)
  {
    var b := Text(ls) + [NUL];
    assert At(b, 0, Text(ls)) && Place(b, ls) == 0 && Stands(f, b, ls);
    StartChar(f, b, ls);
    if fileComment.None? && HasLeading(ls) {
      var rest := Leading(ls).1;
      LeadingIs(f, b, ls);
      LinesLoad(f, b, rest, "", None, st);
      LoadOnIsLoad(f, b, Place(b, rest), "", st);
    } else {
      LinesLoad(f, b, ls, "", None, st);
      LoadOnIsLoad(f, b, 0, "", st);
    }
    if ls == [] {
      assert Calls(f, ls, "", None) == [];
    }
  }

  function HashLines(): seq<Line> {
    [Line("", Heading("", "s", "", ""), false), Line("", Remark('#', " a=b"), false),
     Line("", Key("k", "", "", "v", ""), false)]
  }

  lemma HashComment(l: Line, k: Line)
    requires l.body.Remark? && k.body.Key?
    ensures Comment([l, k]) == (RemarkText(l), [k])
  {
    assert [l, k][1..] == [k];
  }

  lemma HashCalls(f: Format)
    ensures Calls(f, HashLines(), "", None)
      == [Call("s", None, None, None), Call("s", Some("k"), Some("v"), Some("# a=b"))]
  {
    var ls := HashLines();
    var tail := ls[1..];
    assert tail == [ls[1], ls[2]] && tail[1..] == [ls[2]] && [ls[2]][1..] == [];
    HashComment(ls[1], ls[2]);
    assert RemarkText(ls[1]) == "# a=b";
    assert Calls(f, [ls[2]], "s", Some("# a=b")) == [Call("s", Some("k"), Some("v"), Some("# a=b"))] + [];
    assert Calls(f, tail, "s", None) == Calls(f, [ls[2]], "s", Some("# a=b"));
  }

  lemma ThreeLines(a: Line, b: Line, c: Line)
    ensures Text([a, b, c]) == LineText(a) + (LineText(b) + (LineText(c) + ""))
  {
    var ls := [a, b, c];
    assert ls[1..] == [b, c] && [b, c][1..] == [c] && [c][1..] == [];
    assert Text([c][1..]) == "" && Text([b, c][1..]) == LineText(c) + "";
    assert Text(ls[1..]) == LineText(b) + (LineText(c) + "");
  }

  lemma HashLinesText()
    ensures Text(HashLines()) == "[s]\n# a=b\nk=v\n"
  {
    var ls := HashLines();
    ThreeLines(ls[0], ls[1], ls[2]);
    HashLineTexts();
    HashJoined();
  }

  lemma HashJoined()
    ensures "[s]\n" + ("# a=b\n" + ("k=v\n" + "")) == "[s]\n# a=b\nk=v\n"
  {
  }

  lemma HashLineTexts()
    ensures LineText(HashLines()[0]) == "[s]\n"
    ensures LineText(HashLines()[1]) == "# a=b\n"
    ensures LineText(HashLines()[2]) == "k=v\n"
  {
    assert BodyText(HashLines()[0].body) == "[s]";
    assert BodyText(HashLines()[1].body) == "# a=b";
    assert BodyText(HashLines()[2].body) == "k=v";
  }

  /** A line that looks like a key is a comment behind '#'. */
  lemma HashText(f: Format, st: Store)
    ensures D.LoadPlain(f, "[s]\n# a=b\nk=v\n", st, None)
      == (Apply(f, st, [Call("s", None, None, None), Call("s", Some("k"), Some("v"), Some("# a=b"))]), None)
  {
    HashCalls(f);
    HashLinesText();
    HashGood(f);
    TextLoads(f, HashLines(), st, None);
  }

  lemma HashGood(f: Format)
    ensures AllGood(f, HashLines())
  {
  }
}
