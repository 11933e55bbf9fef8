/** What Save writes, line by line, and what loading makes of it: comments included. A clause that says `P(..) == true`
    states P as one fact, which the verifier does not unfold there. */
module IniSaved {
  import opened Options
  import opened IniCompare
  import opened IniFormat
  import opened IniText
  import opened IniStore
  import opened IniPrint
  import opened IniValues
  import opened IniEntries
  import opened IniLines
  import opened IniGrammar
  import D = IniDocument
  import L = IniLoad
  import P = IniParse
  import S = IniSections

  // ------------------------------------------------------------------ texts in pieces

  /** The pieces between the newlines. */
  function Pieces(text: string): (r: seq<string>)
    ensures r != []
    decreases |text|
  {
    var k := FirstLine(text);
    if k < |text| then [text[..k]] + Pieces(text[k + 1..]) else [text]
  }

  lemma {:induction false} PiecesJoin(text: string)
    ensures Joined(Pieces(text)) == text
    decreases |text|
  {
    var k := FirstLine(text);
    if k < |text| {
      PiecesJoin(text[k + 1..]);
      assert ([text[..k]] + Pieces(text[k + 1..]))[1..] == Pieces(text[k + 1..]);
      assert text == text[..k] + "\n" + text[k + 1..];
    }
  }

  lemma FirstPiece(text: string)
    ensures var k := FirstLine(text); '\n' !in text[..k]
  {
    forall i | 0 <= i < FirstLine(text) ensures text[i] != '\n' {
      FirstLineHas(text, i);
    }
  }

  lemma {:induction false} PiecesInLine(text: string, i: nat)
    requires '\r' !in text && '\0' !in text && i < |Pieces(text)|
    ensures InLine(Pieces(text)[i])
    decreases |text|
  {
    var k := FirstLine(text);
    FirstPiece(text);
    if k < |text| && i > 0 {
      PiecesInLine(text[k + 1..], i - 1);
    } else {
      assert k == |text| ==> text[..k] == text;
    }
  }

  lemma {:induction false} PiecesFree(f: Format, v: string, i: nat)
    requires '\r' !in v && '\0' !in v && TagFree(Like(f.noCase, END), v) && i < |Pieces(v)|
    ensures !Closes(f, END, Pieces(v)[i])
    decreases |v|
  {
    var k := FirstLine(v);
    if k < |v| && i > 0 {
      PiecesFree(f, v[k + 1..], i - 1);
    } else {
      var line := v[..k];
      PiecesInLine(v, 0);
      assert k == |v| ==> line == v;
      ClosesIff(f, line, 0, |line|, END, line);
      assert line[0..TagEnd(line, 0, |line|)] == CutTag(line);
    }
  }

  // ------------------------------------------------------------------ comments

  /** A comment that was read, or could have been: comment lines, and empty lines between them. */
  predicate CommentSafe(c: string) {
    && '\r' !in c && '\0' !in c
    && (forall i :: 0 <= i < |Pieces(c)| ==> Pieces(c)[i] == "" || Pieces(c)[i][0] in ";#")
    && Pieces(c)[0] != "" && Pieces(c)[|Pieces(c)| - 1] != ""
  }

  function PieceLine(piece: string): Line {
    Line("", if piece == "" then Blank else Remark(piece[0], piece[1..]), false)
  }

  function PieceLines(pieces: seq<string>): (r: seq<Line>)
    ensures |r| == |pieces| && forall i :: 0 <= i < |r| ==> r[i] == PieceLine(pieces[i])
  {
    if pieces == [] then [] else [PieceLine(pieces[0])] + PieceLines(pieces[1..])
  }

  lemma PieceText(piece: string)
    ensures LineText(PieceLine(piece)) == piece + "\n"
  {
    if piece != "" {
      assert [piece[0]] + piece[1..] == piece;
    }
    assert "" + BodyText(PieceLine(piece).body) + "\n" + "" == piece + "\n";
  }

  lemma {:induction false} PieceLinesText(pieces: seq<string>)
    ensures Text(PieceLines(pieces)) == Raw(pieces)
    decreases |pieces|
  {
    if pieces != [] {
      PieceText(pieces[0]);
      PieceLinesText(pieces[1..]);
      assert PieceLines(pieces)[1..] == PieceLines(pieces[1..]);
    }
  }

  lemma CommentText(c: string)
    requires CommentSafe(c)
    ensures Text(PieceLines(Pieces(c))) == MultiLineOut(c)
  {
    PieceLinesText(Pieces(c));
    RawIsJoined(Pieces(c));
    PiecesJoin(c);
    assert Pieces("") == [""];
  }

  // ------------------------------------------------------------------ comments that are read are safe

  /** What may come behind the first line of a safe comment. */
  predicate TailSafe(c: string) {
    && '\r' !in c && '\0' !in c && Pieces(c)[|Pieces(c)| - 1] != ""
    && (forall i :: 0 <= i < |Pieces(c)| ==> Pieces(c)[i] == "" || Pieces(c)[i][0] in ";#")
  }

  lemma PiecesOn(line: string, rest: string)
    requires '\n' !in line
    ensures Pieces(line + "\n" + rest) == [line] + Pieces(rest)
  {
    var all := line + "\n" + rest;
    FirstNewLine(line, rest);
    assert all[..|line|] == line && all[|line| + 1..] == rest;
  }

  lemma {:induction false} FirstNewLine(line: string, rest: string)
    requires '\n' !in line
    ensures FirstLine(line + "\n" + rest) == |line|
    decreases |line|
  {
    var all := line + "\n" + rest;
    if line != "" {
      assert all[1..] == line[1..] + "\n" + rest && all[0] == line[0];
      FirstNewLine(line[1..], rest);
    }
  }

  lemma {:induction false} WholePiece(line: string)
    requires '\n' !in line
    ensures Pieces(line) == [line]
  {
    NoNewLine(line);
  }

  lemma {:induction false} NoNewLine(line: string)
    requires '\n' !in line
    ensures FirstLine(line) == |line|
    decreases |line|
  {
    if line != "" {
      NoNewLine(line[1..]);
    }
  }

  lemma EmptyLineBefore(c: string)
    requires TailSafe(c)
    ensures TailSafe("\n" + c)
  {
    PiecesOn("", c);
    assert "" + "\n" + c == "\n" + c;
    var all := [""] + Pieces(c);
    assert forall i :: 0 < i < |all| ==> all[i] == Pieces(c)[i - 1];
  }

  lemma {:induction false} EmptyLinesBefore(n: nat, c: string)
    requires TailSafe(c)
    ensures TailSafe(NewLines(n) + c)
    decreases n
  {
    if n == 0 {
      assert NewLines(0) + c == c;
    } else {
      EmptyLineBefore(c);
      EmptyLinesBefore(n - 1, "\n" + c);
      assert NewLines(n) + c == NewLines(n - 1) + ("\n" + c);
    }
  }

  lemma LineBefore(line: string, c: string)
    requires InLine(line) && line != "" && line[0] in ";#" && TailSafe(c)
    ensures CommentSafe(line + "\n" + c)
  {
    PiecesOn(line, c);
    var all := [line] + Pieces(c);
    assert forall i :: 0 < i < |all| ==> all[i] == Pieces(c)[i - 1];
  }

  lemma LineOnly(line: string)
    requires InLine(line) && line != "" && line[0] in ";#"
    ensures CommentSafe(line)
  {
    WholePiece(line);
  }

  lemma CommentLineRead(b: string, p: int, e: int)
    requires Ended(b) && 0 <= p < |b| && IsComment(b[p]) && e == Scan(b, p, LineEnd)
    ensures p < e && InLine(b[p..e]) && b[p..e][0] in ";#"
  {
    ScanIsFirst(b, p, LineEnd);
    forall i | 0 <= i < e - p ensures b[p..e][i] !in "\n\r\0" {
      assert !Stops(LineEnd, b[p + i]);
    }
  }

  /** Every comment that is read is safe. */
  lemma {:induction false} CommentsAreSafe(b: string, p: int, blank: bool)
    requires Ended(b) && 0 <= p < |b| && IsComment(b[p])
    ensures CommentSafe(Comments(b, p, blank).0) == true
    decreases |b| - p
  {
    var e := Scan(b, p, LineEnd);
    var line := b[p..e];
    CommentLineRead(b, p, e);
    LineOnly(line);
    if b[e] != NUL {
      var q := AfterNewLine(b, e);
      var s := SkipBlank(b, q, 0);
      if IsComment(b[q]) {
        CommentsAreSafe(b, q, blank);
        LineBefore(line, Comments(b, q, blank).0);
      } else if blank && IsComment(b[s.1]) {
        CommentsAreSafe(b, s.1, blank);
        EmptyLinesBefore(s.0, Comments(b, s.1, blank).0);
        LineBefore(line, NewLines(s.0) + Comments(b, s.1, blank).0);
        assert line + "\n" + (NewLines(s.0) + Comments(b, s.1, blank).0)
          == line + "\n" + NewLines(s.0) + Comments(b, s.1, blank).0;
      }
    }
  }

  predicate CommentFound(r: P.Found) {
    !r.NoMore? ==> CommentOk(r.comment)
  }

  /** So every comment that FindEntry returns is safe to save. */
  lemma {:induction false} FoundCommentSafe(f: Format, b: string, p: int, s: P.SectionAt, comment: Option<string>)
    requires Ended(b) && 0 <= p < |b| && (s.Raw? ==> 0 <= s.at <= p) && CommentOk(comment)
    ensures CommentFound(P.NextEntry(f, b, p, s, comment)) == true
    decreases |b| - p
  {
    var q := Scan(b, p, NotSpace);
    if IsComment(b[q]) {
      var c := Comments(b, q, true);
      CommentsAreSafe(b, q, true);
      FoundCommentSafe(f, b, c.1, P.Named(P.Settled(b, s, q, c.0)), Some(c.0));
    } else if b[q] == '[' {
      var n := Scan(b, q + 1, NotSpace);
      var e := Scan(b, n, Bracket);
      if b[e] != ']' {
        FoundCommentSafe(f, b, e, P.Raw(n), comment);
      }
    } else if b[q] != NUL {
      var e := Scan(b, q, Equals);
      if b[e] != '=' {
        FoundCommentSafe(f, b, e, s, comment);
      } else if e == q {
        FoundCommentSafe(f, b, Scan(b, e, LineEnd), s, comment);
      }
    }
  }

  // ------------------------------------------------------------------ keys and headers

  function Space(f: Format): string {
    if f.spaces then " " else ""
  }

  function KeyBody(f: Format, key: string, value: string): Body {
    if Quotes(f, value) then Key(key, Space(f), Space(f), "\"" + value + "\"", "")
    else if Spreads(f, value) then Spread(key, Space(f), Space(f), END, "", Pieces(value), END)
    else Key(key, Space(f), Space(f), value, "")
  }

  lemma SeparatorIs(f: Format, key: string)
    ensures key + Space(f) + "=" + Space(f) == key + Separator(f)
  {
  }

  lemma PlainAlgebra(front: string, v: string)
    ensures "" + (front + v + "") + "\n" + "" == front + (v + "\n")
  {
  }

  lemma SpreadAlgebra(front: string, tag: string, v: string)
    ensures "" + (front + ("<<<" + tag) + "") + "\n" + ((v + "\n") + (tag + "\n"))
      == front + (("<<<" + tag + "\n" + (v + "\n") + tag) + "\n")
  {
  }

  lemma KeyLineText(f: Format, key: string, value: string)
    ensures LineText(Line("", KeyBody(f, key, value), false)) == KeyText(f, key, value)
  {
    var front := key + Space(f) + "=" + Space(f);
    SeparatorIs(f, key);
    assert KeyText(f, key, value) == key + Separator(f) + (ValueText(f, value) + "\n");
    if Quotes(f, value) {
      PlainAlgebra(front, "\"" + value + "\"");
    } else if Spreads(f, value) {
      RawIsJoined(Pieces(value));
      PiecesJoin(value);
      SpreadAlgebra(front, END, value);
    } else {
      PlainAlgebra(front, value);
    }
  }

  lemma EndCloses(f: Format)
    ensures InLine(END) && END[|END| - 1] !in " \t" && Closes(f, END, END)
  {
    LessIrreflexive(f.noCase, END);
    assert END[..|END|] == END && Padding(END[|END|..]);
  }

  lemma KeyIsGood(f: Format, key: string)
    requires KeySafe(key) && L.NoNul(key)
    ensures KeyGood(key, Space(f), Space(f), "")
  {
  }

  lemma SpreadIsGood(f: Format, key: string, value: string)
    requires KeySafe(key) && L.NoNul(key) && L.NoNul(value) && ValueSafe(f, value) && Spreads(f, value)
    ensures BodyGood(f, KeyBody(f, key, value))
  {
    KeyIsGood(f, key);
    EndCloses(f);
    forall i | 0 <= i < |Pieces(value)| ensures InLine(Pieces(value)[i]) && !Closes(f, END, Pieces(value)[i]) {
      PiecesInLine(value, i);
      PiecesFree(f, value, i);
    }
  }

  lemma KeyLineGood(f: Format, key: string, value: string)
    requires KeySafe(key) && L.NoNul(key) && L.NoNul(value) && ValueSafe(f, value)
    ensures BodyGood(f, KeyBody(f, key, value)) == true
  {
    if Spreads(f, value) {
      SpreadIsGood(f, key, value);
    } else {
      KeyIsGood(f, key);
      assert !HasNewLine(value);
      assert '\n' !in value && '\r' !in value;
      if Quotes(f, value) {
        var text := "\"" + value + "\"";
        assert text[0] == '"' && text[|text| - 1] == '"';
      }
    }
  }

  lemma KeyLineMeans(f: Format, key: string, value: string)
    requires ValueSafe(f, value)
    ensures var body := KeyBody(f, key, value);
      if body.Spread? then Joined(body.lines) == value else Meant(f, body.value) == value
  {
    if Quotes(f, value) {
      assert ("\"" + value + "\"")[1..|value| + 1] == value;
    } else if Spreads(f, value) {
      PiecesJoin(value);
    } else {
      assert P.Unquoted(f, value) == value;
    }
  }

  // ------------------------------------------------------------------ values in characters

  predicate White(ch: char) {
    ch in " \t\r\n"
  }

  predicate BlankFirst(v: string) {
    v != "" && White(v[0])
  }

  predicate BlankLast(v: string) {
    v != "" && White(v[|v| - 1])
  }

  predicate Breaks(v: string) {
    '\n' in v || '\r' in v
  }

  /** What Save writes for a value: in quotes if these are on and it starts with white space, or ends with it on one
      line; on lines of its own if that is on and it has a newline or white space at an end; and else as it is. */
  lemma ValueInCharacters(f: Format, v: string)
    ensures ValueText(f, v) ==
      if f.parseQuotes && (BlankFirst(v) || (BlankLast(v) && !Breaks(v))) then "\"" + v + "\""
      else if f.multiLine && (BlankFirst(v) || BlankLast(v) || Breaks(v)) then
        "<<<END_OF_TEXT\n" + v + "\nEND_OF_TEXT"
      else v
    ensures Separator(f) == if f.spaces then " = " else "="
  {
    BreaksIs(v);
    if Spreads(f, v) {
      SpreadIs("<<<", END, v);
      EndTexts();
    }
  }

  lemma EndTexts()
    ensures "<<<" + END + "\n" == "<<<END_OF_TEXT\n" && "\n" + END == "\nEND_OF_TEXT"
  {
  }

  lemma SpreadIs(open: string, tag: string, v: string)
    ensures open + tag + "\n" + (v + "\n") + tag == (open + tag + "\n") + v + ("\n" + tag)
  {
  }

  lemma BreaksIs(v: string)
    ensures HasNewLine(v) <==> Breaks(v)
  {
    if Breaks(v) {
      var i :| 0 <= i < |v| && (v[i] == '\n' || v[i] == '\r');
      assert IsNewLineChar(v[i]);
    }
  }

  /** No line of the value is the end tag, with padding behind it. */
  ghost predicate NoLineCloses(f: Format, v: string) {
    forall i :: 0 <= i < |Pieces(v)| ==> !Closes(f, "END_OF_TEXT", Pieces(v)[i])
  }

  lemma {:induction false} FreeIff(f: Format, v: string)
    requires '\r' !in v && '\0' !in v
    ensures TagFree(Like(f.noCase, END), v) <==> NoLineCloses(f, v)
    decreases |v|
  {
    var k := FirstLine(v);
    var line := v[..k];
    PiecesInLine(v, 0);
    assert k == |v| ==> line == v;
    ClosesIff(f, line, 0, |line|, END, line);
    assert line[0..TagEnd(line, 0, |line|)] == CutTag(line);
    if k < |v| {
      var rest := Pieces(v[k + 1..]);
      FreeIff(f, v[k + 1..]);
      assert forall i :: 0 < i < |Pieces(v)| ==> Pieces(v)[i] == rest[i - 1];
      assert forall i :: 0 <= i < |rest| ==> rest[i] == Pieces(v)[i + 1];
    }
  }

  /** Which values come back, in characters. */
  lemma SafeInCharacters(f: Format, v: string)
    requires '\0' !in v
    ensures ValueSafe(f, v) <==>
      if f.parseQuotes && (BlankFirst(v) || (BlankLast(v) && !Breaks(v))) then !Breaks(v)
      else if f.multiLine && (BlankFirst(v) || BlankLast(v) || Breaks(v)) then '\r' !in v && NoLineCloses(f, v)
      else
        && !BlankFirst(v) && !BlankLast(v) && !Breaks(v) && !(f.multiLine && "<<<" <= v)
        && !(f.parseQuotes && |v| >= 2 && v[0] == '"' && v[|v| - 1] == '"')
  {
    BreaksIs(v);
    if '\r' !in v {
      FreeIff(f, v);
    }
  }

  // ------------------------------------------------------------------ the lines of a content

  function CommentLines(comment: Option<string>): seq<Line> {
    if comment.None? then [] else PieceLines(Pieces(comment.value))
  }

  function BlankLine(): Line {
    Line("", Blank, false)
  }

  function ItemLines(f: Format, i: Item): seq<Line> {
    (if i.comment.Some? then [BlankLine()] else [])
      + (CommentLines(i.comment) + [Line("", KeyBody(f, i.key, i.value), false)])
  }

  function ItemsLines(f: Format, items: seq<Item>): seq<Line> {
    if items == [] then [] else ItemLines(f, items[0]) + ItemsLines(f, items[1..])
  }

  function HeaderLines(name: string): seq<Line> {
    if name == [] then [] else [Line("", Heading("", name, "", ""), false)]
  }

  function GapLines(need: bool): seq<Line> {
    if need then [BlankLine(), BlankLine()] else []
  }

  function SectLines(f: Format, s: Sect, need: bool): seq<Line> {
    GapLines(need) + (CommentLines(s.comment) + (HeaderLines(s.name) + ItemsLines(f, s.items)))
  }

  function SectsLines(f: Format, sects: seq<Sect>, need: bool): seq<Line> {
    if sects == [] then [] else SectLines(f, sects[0], need) + SectsLines(f, sects[1..], true)
  }

  // ------------------------------------------------------------------ what is safe to save

  predicate CommentOk(comment: Option<string>) {
    comment.Some? ==> CommentSafe(comment.value)
  }

  ghost predicate ItemSafe(f: Format, i: Item) {
    CommentOk(i.comment) && L.NoNul(i.key) && L.NoNul(i.value) && KeySafe(i.key) && ValueSafe(f, i.value)
  }

  ghost predicate ItemsSafe(f: Format, items: seq<Item>) {
    forall i :: 0 <= i < |items| ==> ItemSafe(f, items[i])
  }

  /** The section without a name has no header that a comment could stand in front of. */
  ghost predicate SectSafe(f: Format, s: Sect) {
    && CommentOk(s.comment) && (s.name == [] ==> s.comment.None?)
    && L.NoNul(s.name) && NameSafe(s.name) && ItemsSafe(f, s.items)
  }

  ghost predicate SectsSafe(f: Format, sects: seq<Sect>) {
    forall i :: 0 <= i < |sects| ==> SectSafe(f, sects[i])
  }

  lemma SectsTail(f: Format, sects: seq<Sect>)
    requires SectsSafe(f, sects) && sects != []
    ensures SectSafe(f, sects[0]) && SectsSafe(f, sects[1..])
  {
  }

  lemma ItemsTail(f: Format, items: seq<Item>)
    requires ItemsSafe(f, items) && items != []
    ensures ItemSafe(f, items[0]) && ItemsSafe(f, items[1..])
  {
  }

  // ------------------------------------------------------------------ these lines are the text, and good lines

  lemma {:induction false} TextConcat(a: seq<Line>, b: seq<Line>)
    ensures Text(a + b) == Text(a) + Text(b)
    decreases |a|
  {
    if a == [] {
      assert a + b == b;
    } else {
      assert (a + b)[1..] == a[1..] + b;
      TextConcat(a[1..], b);
    }
  }

  lemma OneLineText(l: Line)
    ensures Text([l]) == LineText(l)
  {
    assert [l][1..] == [];
  }

  lemma GapText(need: bool)
    ensures Text(GapLines(need)) == D.Gap(need)
  {
    if need {
      assert GapLines(need)[1..] == [BlankLine()];
      OneLineText(BlankLine());
      assert LineText(BlankLine()) == "\n";
    }
  }

  lemma CommentLinesText(comment: Option<string>)
    requires CommentOk(comment)
    ensures Text(CommentLines(comment)) == if comment.Some? then MultiLineOut(comment.value) else ""
  {
    if comment.Some? {
      CommentText(comment.value);
    }
  }

  lemma ItemLinesText(f: Format, i: Item)
    requires CommentOk(i.comment)
    ensures Text(ItemLines(f, i)) == ItemText(f, i)
  {
    var key := Line("", KeyBody(f, i.key, i.value), false);
    var blank := if i.comment.Some? then [BlankLine()] else [];
    TextConcat(blank, CommentLines(i.comment) + [key]);
    TextConcat(CommentLines(i.comment), [key]);
    CommentLinesText(i.comment);
    OneLineText(key);
    KeyLineText(f, i.key, i.value);
    OneLineText(BlankLine());
    assert LineText(BlankLine()) == "\n";
    ItemAlgebra(if i.comment.Some? then "\n" else "", if i.comment.Some? then MultiLineOut(i.comment.value) else "",
                i.key, Separator(f), ValueText(f, i.value));
  }

  lemma ItemAlgebra(a: string, b: string, k: string, s: string, v: string)
    ensures a + (b + (k + (s + (v + "\n")))) == (a + b) + k + s + v + "\n"
  {
  }

  lemma {:induction false} ItemsLinesText(f: Format, items: seq<Item>)
    requires ItemsSafe(f, items)
    ensures Text(ItemsLines(f, items)) == ItemsText(f, items)
    decreases |items|
  {
    if items != [] {
      ItemsTail(f, items);
      ItemLinesText(f, items[0]);
      ItemsLinesText(f, items[1..]);
      TextConcat(ItemLines(f, items[0]), ItemsLines(f, items[1..]));
    }
  }

  lemma HeaderText(name: string)
    ensures Text(HeaderLines(name)) == Header(name)
  {
    if name != [] {
      OneLineText(HeaderLines(name)[0]);
      assert "" + ("[" + "" + name + "" + "]" + "") + "\n" + "" == "[" + name + "]\n";
    }
  }

  lemma SectLinesText(f: Format, s: Sect, need: bool)
    requires SectSafe(f, s)
    ensures Text(SectLines(f, s, need)) == SectText(f, s, need)
  {
    var items := ItemsLines(f, s.items);
    TextConcat(GapLines(need), CommentLines(s.comment) + (HeaderLines(s.name) + items));
    TextConcat(CommentLines(s.comment), HeaderLines(s.name) + items);
    TextConcat(HeaderLines(s.name), items);
    GapText(need);
    CommentLinesText(s.comment);
    HeaderText(s.name);
    ItemsLinesText(f, s.items);
    SectAlgebra(D.Gap(need), if s.comment.Some? then MultiLineOut(s.comment.value) else "", Header(s.name),
                ItemsText(f, s.items));
  }

  lemma SectAlgebra(a: string, b: string, c: string, d: string)
    ensures a + (b + (c + d)) == a + b + c + d
  {
  }

  /** What Save writes, in lines. */
  lemma {:induction false} SectsLinesText(f: Format, sects: seq<Sect>, need: bool)
    requires SectsSafe(f, sects)
    ensures Text(SectsLines(f, sects, need)) == SectsText(f, sects, need)
    decreases |sects|
  {
    if sects != [] {
      SectsTail(f, sects);
      SectLinesText(f, sects[0], need);
      SectsLinesText(f, sects[1..], true);
      TextConcat(SectLines(f, sects[0], need), SectsLines(f, sects[1..], true));
    }
  }

  lemma GoodConcat(f: Format, a: seq<Line>, b: seq<Line>)
    requires AllGood(f, a) && AllGood(f, b)
    ensures AllGood(f, a + b) == true
  {
    forall i | 0 <= i < |a + b| ensures Good(f, (a + b)[i]) {
      assert (a + b)[i] == if i < |a| then a[i] else b[i - |a|];
    }
  }

  lemma CommentLinesGood(f: Format, comment: Option<string>)
    requires CommentOk(comment)
    ensures AllGood(f, CommentLines(comment)) == true
  {
    if comment.Some? {
      var pieces := Pieces(comment.value);
      forall i | 0 <= i < |pieces| ensures Good(f, PieceLine(pieces[i])) {
        PiecesInLine(comment.value, i);
      }
    }
  }

  lemma ItemLinesGood(f: Format, i: Item)
    requires ItemSafe(f, i)
    ensures AllGood(f, ItemLines(f, i)) == true
  {
    var key := [Line("", KeyBody(f, i.key, i.value), false)];
    var blank := if i.comment.Some? then [BlankLine()] else [];
    KeyLineGood(f, i.key, i.value);
    CommentLinesGood(f, i.comment);
    GoodConcat(f, CommentLines(i.comment), key);
    GoodConcat(f, blank, CommentLines(i.comment) + key);
  }

  lemma {:induction false} ItemsLinesGood(f: Format, items: seq<Item>)
    requires ItemsSafe(f, items)
    ensures AllGood(f, ItemsLines(f, items)) == true
    decreases |items|
  {
    if items != [] {
      ItemsTail(f, items);
      ItemLinesGood(f, items[0]);
      ItemsLinesGood(f, items[1..]);
      GoodConcat(f, ItemLines(f, items[0]), ItemsLines(f, items[1..]));
    }
  }

  lemma HeaderGood(f: Format, name: string)
    requires NameSafe(name) && L.NoNul(name)
    ensures AllGood(f, HeaderLines(name)) == true
  {
    if name != [] {
      assert Bare(name);
    }
  }

  lemma SectLinesGood(f: Format, s: Sect, need: bool)
    requires SectSafe(f, s)
    ensures AllGood(f, SectLines(f, s, need)) == true
  {
    var items := ItemsLines(f, s.items);
    ItemsLinesGood(f, s.items);
    HeaderGood(f, s.name);
    CommentLinesGood(f, s.comment);
    GoodConcat(f, HeaderLines(s.name), items);
    GoodConcat(f, CommentLines(s.comment), HeaderLines(s.name) + items);
    GoodConcat(f, GapLines(need), CommentLines(s.comment) + (HeaderLines(s.name) + items));
  }

  lemma {:induction false} SectsLinesGood(f: Format, sects: seq<Sect>, need: bool)
    requires SectsSafe(f, sects)
    ensures AllGood(f, SectsLines(f, sects, need)) == true
    decreases |sects|
  {
    if sects != [] {
      SectsTail(f, sects);
      SectLinesGood(f, sects[0], need);
      SectsLinesGood(f, sects[1..], true);
      GoodConcat(f, SectLines(f, sects[0], need), SectsLines(f, sects[1..], true));
    }
  }

  // ------------------------------------------------------------------ what the lines say

  lemma {:induction false} JoinedReturns(pieces: seq<string>, m: nat)
    requires m < |pieces| && forall i :: 0 <= i < m ==> pieces[i] == ""
    ensures Joined(pieces) == Returns(m) + Joined(pieces[m..])
    decreases m
  {
    if m == 0 {
      assert pieces[0..] == pieces;
    } else {
      JoinedReturns(pieces[1..], m - 1);
      assert pieces[1..][m - 1..] == pieces[m..];
      assert Joined(pieces) == "" + "\n" + Joined(pieces[1..]);
      assert Returns(m) == "\n" + Returns(m - 1);
    }
  }

  /** How many pieces are empty in front. */
  function Empties(pieces: seq<string>): (m: nat)
    ensures m <= |pieces| && (forall i :: 0 <= i < m ==> pieces[i] == "") && (m < |pieces| ==> pieces[m] != "")
  {
    if pieces == [] || pieces[0] != "" then 0 else 1 + Empties(pieces[1..])
  }

  /** No blank and no comment line is next. */
  predicate Settles(rest: seq<Line>) {
    rest != [] ==> !rest[0].body.Blank? && !rest[0].body.Remark?
  }

  lemma {:induction false} BlanksOf(pieces: seq<string>, rest: seq<Line>)
    requires pieces != [] ==> pieces[|pieces| - 1] != ""
    requires rest != [] ==> !rest[0].body.Blank?
    ensures Blanks(PieceLines(pieces) + rest) == Empties(pieces) && (pieces != [] ==> Empties(pieces) < |pieces|)
    decreases |pieces|
  {
    if pieces == [] {
      assert PieceLines(pieces) + rest == rest;
    } else {
      FirstOfPieces(pieces, rest);
      if pieces[0] == "" {
        BlanksOf(pieces[1..], rest);
      }
    }
  }

  lemma FirstOfPieces(pieces: seq<string>, rest: seq<Line>)
    requires pieces != []
    ensures var ls := PieceLines(pieces) + rest;
      ls != [] && ls[0] == PieceLine(pieces[0]) && ls[1..] == PieceLines(pieces[1..]) + rest
  {
    OneBefore(PieceLine(pieces[0]), PieceLines(pieces[1..]), rest);
  }

  lemma OneBefore(l: Line, tail: seq<Line>, rest: seq<Line>)
    ensures var ls := [l] + tail + rest; ls[0] == l && ls[1..] == tail + rest
  {
  }

  predicate PiecesOk(pieces: seq<string>) {
    && pieces != [] && pieces[0] != "" && pieces[|pieces| - 1] != ""
    && forall i :: 0 <= i < |pieces| ==> pieces[i] == "" || pieces[i][0] in ";#"
  }

  lemma CommentOfOne(piece: string, rest: seq<Line>)
    requires piece != "" && Settles(rest)
    ensures Comment([PieceLine(piece)] + rest) == (piece, rest)
  {
    var ls := [PieceLine(piece)] + rest;
    assert ls[1..] == rest && [piece[0]] + piece[1..] == piece;
  }

  lemma {:induction false} PiecesFrom(pieces: seq<string>, rest: seq<Line>, n: nat)
    requires n <= |pieces|
    ensures (PieceLines(pieces) + rest)[n..] == PieceLines(pieces[n..]) + rest
    decreases n
  {
    if n == 0 {
      assert pieces[0..] == pieces;
    } else {
      var ls := PieceLines(pieces) + rest;
      FirstOfPieces(pieces, rest);
      PiecesFrom(pieces[1..], rest, n - 1);
      assert pieces[1..][n - 1..] == pieces[n..] && ls[1..][n - 1..] == ls[n..];
    }
  }

  lemma PiecesOkFrom(pieces: seq<string>, n: nat)
    requires PiecesOk(pieces) && |pieces| > 1 && n == 1 + Empties(pieces[1..])
    ensures n < |pieces| && PiecesOk(pieces[n..])
  {
    var tail := pieces[1..];
    assert tail[|tail| - 1] == pieces[|pieces| - 1];
    assert n < |pieces| && tail[n - 1] == pieces[n];
    assert forall i :: 0 <= i < |pieces[n..]| ==> pieces[n..][i] == pieces[n + i];
  }

  lemma PiecesBehind(pieces: seq<string>, rest: seq<Line>, n: nat)
    requires PiecesOk(pieces) && |pieces| > 1 && Settles(rest) && n == 1 + Empties(pieces[1..])
    ensures n < |pieces| && PieceLines(pieces) + rest != []
    ensures Blanks((PieceLines(pieces) + rest)[1..]) == n - 1
    ensures Behind(PieceLines(pieces) + rest) == PieceLines(pieces[n..]) + rest
  {
    var ls := PieceLines(pieces) + rest;
    BlanksBehind(pieces, rest, n);
    PiecesFrom(pieces, rest, n);
    BehindFrom(ls, n);
  }

  lemma BehindFrom(ls: seq<Line>, n: nat)
    requires ls != [] && n == 1 + Blanks(ls[1..])
    ensures Behind(ls) == ls[n..]
  {
  }

  lemma BlanksBehind(pieces: seq<string>, rest: seq<Line>, n: nat)
    requires PiecesOk(pieces) && |pieces| > 1 && Settles(rest) && n == 1 + Empties(pieces[1..])
    ensures n < |pieces| && PieceLines(pieces) + rest != []
    ensures Blanks((PieceLines(pieces) + rest)[1..]) == n - 1
  {
    var tail := pieces[1..];
    assert tail[|tail| - 1] == pieces[|pieces| - 1];
    PiecesFrom(pieces, rest, 1);
    BlanksOf(tail, rest);
  }

  lemma FirstRemark(pieces: seq<string>, rest: seq<Line>)
    requires PiecesOk(pieces)
    ensures var ls := PieceLines(pieces) + rest; ls != [] && ls[0].body.Remark? && RemarkText(ls[0]) == pieces[0]
  {
    var ls := PieceLines(pieces) + rest;
    assert ls[0] == PieceLine(pieces[0]) && [pieces[0][0]] + pieces[0][1..] == pieces[0];
  }

  lemma JoinedMore(pieces: seq<string>, n: nat)
    requires |pieces| > 1 && n == 1 + Empties(pieces[1..]) < |pieces|
    ensures pieces[0] + "\n" + Returns(n - 1) + Joined(pieces[n..]) == Joined(pieces)
  {
    JoinedReturns(pieces[1..], n - 1);
    assert pieces[1..][n - 1..] == pieces[n..];
    Associates(pieces[0] + "\n", Returns(n - 1), Joined(pieces[n..]));
  }

  lemma Associates(a: string, b: string, c: string)
    ensures a + (b + c) == a + b + c
  {
  }

  lemma {:induction false} CommentOf(pieces: seq<string>, rest: seq<Line>, ls: seq<Line>)
    requires PiecesOk(pieces) == true && Settles(rest) == true && ls == PieceLines(pieces) + rest
    ensures StartsComment(ls) && Comment(ls) == (Joined(pieces), rest)
    decreases |pieces|
  {
    FirstRemark(pieces, rest);
    if |pieces| == 1 {
      assert PieceLines(pieces) == [PieceLine(pieces[0])];
      CommentOfOne(pieces[0], rest);
    } else {
      var n := 1 + Empties(pieces[1..]);
      var behind := PieceLines(pieces[n..]) + rest;
      PiecesBehind(pieces, rest, n);
      PiecesOkFrom(pieces, n);
      CommentOf(pieces[n..], rest, behind);
      CommentBehind(ls, Joined(pieces[n..]), rest);
      JoinedMore(pieces, n);
    }
  }

  lemma CommentBehind(ls: seq<Line>, text: string, rest: seq<Line>)
    requires StartsComment(ls) && StartsComment(Behind(ls)) && Comment(Behind(ls)) == (text, rest)
    ensures Comment(ls) == (RemarkText(ls[0]) + "\n" + Returns(Blanks(ls[1..])) + text, rest)
  {
  }

  /** A saved comment waits for what comes behind it. */
  lemma CommentWaits(f: Format, comment: Option<string>, rest: seq<Line>, section: string)
    requires CommentOk(comment) && Settles(rest)
    ensures Calls(f, CommentLines(comment) + rest, section, None) == Calls(f, rest, section, comment)
  {
    if comment.Some? {
      var pieces := Pieces(comment.value);
      var ls := CommentLines(comment) + rest;
      CommentOf(pieces, rest, ls);
      PiecesJoin(comment.value);
    } else {
      assert [] + rest == rest;
    }
  }

  lemma BlankSays(f: Format, rest: seq<Line>, section: string, comment: Option<string>)
    ensures Calls(f, [BlankLine()] + rest, section, comment) == Calls(f, rest, section, comment)
  {
    assert ([BlankLine()] + rest)[1..] == rest;
  }

  function ItemCall(section: string, i: Item): Call {
    Call(section, Some(i.key), Some(i.value), i.comment)
  }

  lemma KeySays(f: Format, key: string, value: string, rest: seq<Line>, section: string, comment: Option<string>)
    requires ValueSafe(f, value)
    ensures Calls(f, [Line("", KeyBody(f, key, value), false)] + rest, section, comment)
      == [Call(section, Some(key), Some(value), comment)] + Calls(f, rest, section, None)
  {
    assert ([Line("", KeyBody(f, key, value), false)] + rest)[1..] == rest;
    KeyLineMeans(f, key, value);
  }

  lemma ItemSays(f: Format, i: Item, rest: seq<Line>, section: string)
    requires ItemSafe(f, i)
    ensures Calls(f, ItemLines(f, i) + rest, section, None) == [ItemCall(section, i)] + Calls(f, rest, section, None)
  {
    var key := [Line("", KeyBody(f, i.key, i.value), false)];
    var tail := CommentLines(i.comment) + (key + rest);
    if i.comment.Some? {
      assert ItemLines(f, i) + rest == [BlankLine()] + tail;
      BlankSays(f, tail, section, None);
    } else {
      assert ItemLines(f, i) + rest == tail;
    }
    assert (key + rest)[0] == key[0];
    CommentWaits(f, i.comment, key + rest, section);
    KeySays(f, i.key, i.value, rest, section, i.comment);
  }

  function ItemCalls(section: string, items: seq<Item>): seq<Call> {
    if items == [] then [] else [ItemCall(section, items[0])] + ItemCalls(section, items[1..])
  }

  lemma LinesGroup(a: seq<Line>, b: seq<Line>, c: seq<Line>)
    ensures (a + b) + c == a + (b + c)
  {
  }

  lemma CallsGroup(a: seq<Call>, b: seq<Call>, c: seq<Call>)
    ensures a + (b + c) == (a + b) + c
  {
  }

  lemma {:induction false} ItemsSay(f: Format, items: seq<Item>, rest: seq<Line>, section: string)
    requires ItemsSafe(f, items)
    ensures Calls(f, ItemsLines(f, items) + rest, section, None)
      == ItemCalls(section, items) + Calls(f, rest, section, None)
    decreases |items|
  {
    if items == [] {
      assert ItemsLines(f, items) + rest == rest;
    } else {
      var more := ItemsLines(f, items[1..]);
      ItemsTail(f, items);
      LinesGroup(ItemLines(f, items[0]), more, rest);
      ItemSays(f, items[0], more + rest, section);
      ItemsSay(f, items[1..], rest, section);
      CallsGroup([ItemCall(section, items[0])], ItemCalls(section, items[1..]), Calls(f, rest, section, None));
    }
  }

  function HeaderCalls(s: Sect): seq<Call> {
    if s.name == [] then [] else [Call(s.name, None, None, s.comment)]
  }

  function SectCalls(sects: seq<Sect>): seq<Call> {
    if sects == [] then []
    else (HeaderCalls(sects[0]) + ItemCalls(sects[0].name, sects[0].items)) + SectCalls(sects[1..])
  }

  lemma HeaderSays(f: Format, s: Sect, rest: seq<Line>, section: string)
    requires SectSafe(f, s) && (s.name == [] ==> section == [])
    ensures Calls(f, CommentLines(s.comment) + (HeaderLines(s.name) + rest), section, None)
      == HeaderCalls(s) + Calls(f, rest, s.name, None)
  {
    if s.name == [] {
      assert CommentLines(s.comment) + (HeaderLines(s.name) + rest) == rest;
    } else {
      var ls := HeaderLines(s.name) + rest;
      assert ls[0] == HeaderLines(s.name)[0] && ls[1..] == rest;
      CommentWaits(f, s.comment, ls, section);
    }
  }

  lemma GapSays(f: Format, need: bool, rest: seq<Line>, section: string)
    ensures Calls(f, GapLines(need) + rest, section, None) == Calls(f, rest, section, None)
  {
    if need {
      assert GapLines(need) + rest == [BlankLine()] + ([BlankLine()] + rest);
      BlankSays(f, [BlankLine()] + rest, section, None);
      BlankSays(f, rest, section, None);
    } else {
      assert [] + rest == rest;
    }
  }

  lemma FourParts(a: seq<Line>, b: seq<Line>, c: seq<Line>, d: seq<Line>, rest: seq<Line>)
    ensures a + (b + (c + d)) + rest == a + (b + (c + (d + rest)))
  {
  }

  lemma SectSays(f: Format, s: Sect, need: bool, rest: seq<Line>, section: string)
    requires SectSafe(f, s) == true && (s.name == [] ==> section == [])
    ensures Calls(f, SectLines(f, s, need) + rest, section, None)
      == (HeaderCalls(s) + ItemCalls(s.name, s.items)) + Calls(f, rest, s.name, None)
  {
    var lines := ItemsLines(f, s.items);
    FourParts(GapLines(need), CommentLines(s.comment), HeaderLines(s.name), lines, rest);
    GapSays(f, need, CommentLines(s.comment) + (HeaderLines(s.name) + (lines + rest)), section);
    HeaderSays(f, s, lines + rest, section);
    ItemsSay(f, s.items, rest, s.name);
    CallsGroup(HeaderCalls(s), ItemCalls(s.name, s.items), Calls(f, rest, s.name, None));
  }

  /** The saved lines make one call for each section with a name and one for each item, in order, each with its
      comment. */
  lemma {:induction false} SectsSay(f: Format, sects: seq<Sect>, need: bool, section: string)
    requires SectsSafe(f, sects) && forall i :: 0 <= i < |sects| && sects[i].name == [] ==> i == 0 && section == []
    ensures Calls(f, SectsLines(f, sects, need), section, None) == SectCalls(sects)
    decreases |sects|
  {
    if sects != [] {
      SectsTail(f, sects);
      SectSays(f, sects[0], need, SectsLines(f, sects[1..], true), section);
      SectsSay(f, sects[1..], true, sects[0].name);
    }
  }

  // ------------------------------------------------------------------ the whole text

  /** The comment of the file ends with the first empty line. */
  predicate FileCommentSafe(comment: Option<string>) {
    CommentOk(comment)
      && (comment.Some? ==> forall i :: 0 <= i < |Pieces(comment.value)| ==> Pieces(comment.value)[i] != "")
  }

  function SaveLines(f: Format, fileComment: Option<string>, sects: seq<Sect>): seq<Line> {
    CommentLines(fileComment) + SectsLines(f, sects, fileComment.Some?)
  }

  lemma SaveLinesText(f: Format, fileComment: Option<string>, sects: seq<Sect>)
    requires FileCommentSafe(fileComment) && SectsSafe(f, sects)
    ensures Text(SaveLines(f, fileComment, sects)) == SaveText(f, fileComment, sects)
    ensures AllGood(f, SaveLines(f, fileComment, sects)) == true
  {
    var need := fileComment.Some?;
    TextConcat(CommentLines(fileComment), SectsLines(f, sects, need));
    CommentLinesText(fileComment);
    SectsLinesText(f, sects, need);
    CommentLinesGood(f, fileComment);
    SectsLinesGood(f, sects, need);
    GoodConcat(f, CommentLines(fileComment), SectsLines(f, sects, need));
  }

  lemma {:induction false} LeadingOf(pieces: seq<string>, rest: seq<Line>)
    requires pieces != [] && forall i :: 0 <= i < |pieces| ==> pieces[i] != ""
    requires rest != [] ==> !rest[0].body.Remark?
    ensures HasLeading(PieceLines(pieces) + rest)
    ensures Leading(PieceLines(pieces) + rest).0 == Joined(pieces)
    ensures Leading(PieceLines(pieces) + rest).1 == rest
    decreases |pieces|
  {
    var ls := PieceLines(pieces) + rest;
    PiecesFrom(pieces, rest, 1);
    assert ls[0] == PieceLine(pieces[0]) && [pieces[0][0]] + pieces[0][1..] == pieces[0];
    if |pieces| > 1 {
      LeadingOf(pieces[1..], rest);
      assert ls[1] == ls[1..][0];
    } else {
      assert pieces[1..] == [] && PieceLines([]) + rest == rest;
      assert |ls| > 1 ==> ls[1] == rest[0];
    }
  }

  /** The first saved line is a comment only where the first section has one. */
  lemma FirstSavedLine(f: Format, sects: seq<Sect>, need: bool)
    requires SectsSafe(f, sects)
    ensures HasLeading(SectsLines(f, sects, need)) <==> !need && sects != [] && sects[0].comment.Some?
    ensures need && sects != [] ==> SectsLines(f, sects, need)[0] == BlankLine()
    decreases |sects|
  {
    if sects != [] {
      var s := sects[0];
      SectsTail(f, sects);
      if need {
        assert SectsLines(f, sects, need)[0] == GapLines(need)[0];
      } else if s.comment.Some? {
        var pieces := Pieces(s.comment.value);
        assert SectsLines(f, sects, need)[0] == CommentLines(s.comment)[0] == PieceLine(pieces[0]);
      } else if s.name != [] {
        assert SectsLines(f, sects, need)[0] == HeaderLines(s.name)[0];
      } else if s.items != [] {
        assert ItemSafe(f, s.items[0]);
        assert SectsLines(f, sects, need)[0] == ItemLines(f, s.items[0])[0];
      } else {
        FirstSavedLine(f, sects[1..], true);
        assert SectsLines(f, sects, need) == SectsLines(f, sects[1..], true);
      }
    }
  }

  /** Only the first section may have no name. */
  ghost predicate OnlyFirstUnnamed(sects: seq<Sect>) {
    forall i :: 0 < i < |sects| ==> sects[i].name != []
  }

  /** A comment of the first section is taken for one of the file, unless the file has one. */
  predicate Misplaced(fileComment: Option<string>, sects: seq<Sect>) {
    fileComment.None? && sects != [] && sects[0].comment.Some?
  }

  /** Loading what Save has written makes the calls of AddEntry for its sections and items, in order and with their
      comments, and gives back the comment of the file. */
  lemma SavedLoads(f: Format, fileComment: Option<string>, sects: seq<Sect>, st: Store)
    requires FileCommentSafe(fileComment) && SectsSafe(f, sects) && OnlyFirstUnnamed(sects)
    ensures var r := D.LoadPlain(f, SaveText(f, fileComment, sects), st, None);
      if Misplaced(fileComment, sects) then r.1.Some? else r == (Apply(f, st, SectCalls(sects)), fileComment)
  {
    var ls, rest := SaveLines(f, fileComment, sects), SectsLines(f, sects, fileComment.Some?);
    SaveLinesText(f, fileComment, sects);
    TextLoads(f, ls, st, None);
    FirstSavedLine(f, sects, fileComment.Some?);
    SectsSay(f, sects, fileComment.Some?, []);
    if fileComment.Some? {
      LeadingOf(Pieces(fileComment.value), rest);
      PiecesJoin(fileComment.value);
    } else {
      assert ls == rest;
    }
  }

  // ------------------------------------------------------------------ the calls, section by section

  lemma {:induction false} ApplyConcat(f: Format, st: Store, a: seq<Call>, b: seq<Call>)
    ensures Apply(f, st, a + b) == Apply(f, Apply(f, st, a), b)
    decreases |a|
  {
    if a == [] {
      assert a + b == b;
    } else {
      assert (a + b)[1..] == a[1..] + b;
      ApplyConcat(f, S.AddEntry(f, st, a[0].section, a[0].key, a[0].value, a[0].comment, false), a[1..], b);
    }
  }

  lemma AppliesSect(f: Format, st: Store, sects: seq<Sect>)
    requires sects != []
    ensures Apply(f, st, SectCalls(sects))
      == Apply(f, Apply(f, Apply(f, st, HeaderCalls(sects[0])), ItemCalls(sects[0].name, sects[0].items)),
               SectCalls(sects[1..]))
  {
    var s := sects[0];
    ApplyConcat(f, st, HeaderCalls(s) + ItemCalls(s.name, s.items), SectCalls(sects[1..]));
    ApplyConcat(f, st, HeaderCalls(s), ItemCalls(s.name, s.items));
  }
}
