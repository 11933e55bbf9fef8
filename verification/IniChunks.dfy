/** How much can be found in what Save has written, from any line on: no more than what is saved from there on. Inside a
    value on several lines the lines of the value are read as if they stood for themselves. A clause that says
    `P(..) == true` states P as one fact, which the verifier does not unfold there. */
module IniChunks {
  import opened Options
  import opened IniCompare
  import opened IniFormat
  import opened IniText
  import opened IniLoad
  import opened IniPrint
  import opened IniValues
  import opened IniEntries
  import opened IniGains
  import D = IniDocument
  import F = IniFind
  import H = IniHeaders
  import P = IniParse
  import N = IniLines
  import V = IniSaved

  /** A piece of what Save writes: a line without a key, a key with its value, or the last lines of a value. */
  datatype Chunk = Quiet(line: string) | Keyed(key: string, value: string) | Raw(lines: string)

  function Text(f: Format, cs: seq<Chunk>): string {
    if cs == [] then "" else ChunkText(f, cs[0]) + Text(f, cs[1..])
  }

  function ChunkText(f: Format, c: Chunk): string {
    match c
    case Quiet(line) => line + "\n"
    case Keyed(key, value) => KeyText(f, key, value)
    case Raw(lines) => lines + "\n"
  }

  ghost predicate ChunkGood(f: Format, c: Chunk) {
    match c
    case Quiet(line) => OneLine(line) && (line == "" || line == END || line[0] in "[;#")
    case Keyed(key, value) => NoNul(key) && NoNul(value) && KeySafe(key) && ValueSafe(f, value)
    case Raw(lines) => NoNul(lines) && NoReturn(lines)
  }

  /** Only the first chunk can be the rest of a value, and then the end tag comes next. */
  ghost predicate Good(f: Format, cs: seq<Chunk>) {
    && (forall i :: 0 <= i < |cs| ==> ChunkGood(f, cs[i]) && (cs[i].Raw? ==> i == 0))
    && (cs != [] && cs[0].Raw? ==> |cs| > 1 && cs[1] == Quiet(END))
  }

  ghost function Worth(f: Format, c: Chunk): nat {
    match c
    case Quiet(_) => 0
    case Keyed(key, value) => Gain(f, key, value)
    case Raw(lines) => |lines| + 1
  }

  ghost function Worths(f: Format, cs: seq<Chunk>): nat {
    if cs == [] then 0 else Worth(f, cs[0]) + Worths(f, cs[1..])
  }

  /** What is left behind the first line. */
  ghost function Tail(f: Format, cs: seq<Chunk>): seq<Chunk>
    requires cs != []
  {
    match cs[0]
    case Quiet(_) => cs[1..]
    case Keyed(_, value) => if Spreads(f, value) then [Raw(value), Quiet(END)] + cs[1..] else cs[1..]
    case Raw(lines) =>
      var k := FirstLine(lines);
      if k < |lines| then [Raw(lines[k + 1..])] + cs[1..] else cs[1..]
  }

  function Head(f: Format, c: Chunk): string {
    match c
    case Quiet(line) => line
    case Keyed(key, value) => key + (Separator(f) + if Spreads(f, value) then "<<<" + END else ValueText(f, value))
    case Raw(lines) => lines[..FirstLine(lines)]
  }

  /** The chunks stand at p, and nothing is behind them. */
  ghost predicate Stands(f: Format, b: string, p: int, cs: seq<Chunk>) {
    Ended(b) && 0 <= p && p + |Text(f, cs)| == |b| - 1 && At(b, p, Text(f, cs)) && Good(f, cs)
  }

  // ------------------------------------------------------------------ line by line

  lemma EndIsOneLine()
    ensures OneLine(END) && NoNul(END) && NoReturn(END) && !SpaceLast(END)
  {
  }

  lemma TailGood(f: Format, cs: seq<Chunk>)
    requires Good(f, cs) && cs != []
    ensures Good(f, Tail(f, cs)) && Good(f, cs[1..])
  {
    EndIsOneLine();
    var t := Tail(f, cs);
    assert ChunkGood(f, cs[0]);
    match cs[0] {
      case Quiet(_) =>
      case Keyed(_, value) =>
        if Spreads(f, value) {
          ReturnFree(value);
        }
      case Raw(lines) =>
        var k := FirstLine(lines);
        if k < |lines| {
          RestClean(lines, k + 1);
        }
    }
  }

  lemma TailText(f: Format, cs: seq<Chunk>)
    requires cs != [] && (cs[0].Keyed? && Spreads(f, cs[0].value) ==> cs[0].value != [])
    ensures Text(f, cs) == (Head(f, cs[0]) + "\n") + Text(f, Tail(f, cs))
  {
    match cs[0] {
      case Quiet(_) =>
      case Keyed(key, value) =>
        if Spreads(f, value) {
          SpreadText(f, key, value, cs[1..]);
        } else {
          KeyAlgebra(key, Separator(f), ValueText(f, value));
        }
      case Raw(lines) =>
        var k := FirstLine(lines);
        if k < |lines| {
          RawText(f, lines, k, cs[1..]);
        } else {
          assert lines[..k] == lines;
        }
    }
  }

  lemma KeyAlgebra(k: string, s: string, v: string)
    ensures k + (s + (v + "\n")) == (k + (s + v)) + "\n"
  {
  }

  lemma SpreadText(f: Format, key: string, value: string, rest: seq<Chunk>)
    requires Spreads(f, value) && value != []
    ensures KeyText(f, key, value) + Text(f, rest)
      == ((key + (Separator(f) + ("<<<" + END))) + "\n") + Text(f, [Raw(value), Quiet(END)] + rest)
  {
    var cs := [Raw(value), Quiet(END)] + rest;
    assert cs[1..] == [Quiet(END)] + rest && cs[1..][1..] == rest;
    assert Text(f, cs) == (value + "\n") + Text(f, cs[1..]);
    assert Text(f, cs[1..]) == (END + "\n") + Text(f, rest);
    SpreadAlgebra(key, Separator(f), value, Text(f, rest));
  }

  lemma SpreadAlgebra(k: string, s: string, v: string, t: string)
    ensures (k + (s + (("<<<" + END + "\n" + (v + "\n") + END) + "\n"))) + t
      == ((k + (s + ("<<<" + END))) + "\n") + ((v + "\n") + ((END + "\n") + t))
  {
  }

  lemma RawText(f: Format, lines: string, k: nat, rest: seq<Chunk>)
    requires k < |lines| && lines[k] == '\n'
    ensures (lines + "\n") + Text(f, rest) == (lines[..k] + "\n") + Text(f, [Raw(lines[k + 1..])] + rest)
  {
    var cs := [Raw(lines[k + 1..])] + rest;
    assert cs[1..] == rest;
    LinesShape(lines, k, "\n");
  }

  lemma TailWorth(f: Format, cs: seq<Chunk>)
    requires Good(f, cs) && cs != []
    ensures Worths(f, Tail(f, cs)) <= Worths(f, cs)
    ensures cs[0].Raw? ==> |Head(f, cs[0])| + 1 + Worths(f, Tail(f, cs)) == Worths(f, cs)
  {
    assert ChunkGood(f, cs[0]);
    match cs[0] {
      case Quiet(_) =>
      case Keyed(key, value) =>
        if Spreads(f, value) {
          var t := [Raw(value), Quiet(END)] + cs[1..];
          assert t[1..][1..] == cs[1..] && t[1..][0] == Quiet(END);
        }
      case Raw(lines) =>
        var k := FirstLine(lines);
        if k < |lines| {
          assert ([Raw(lines[k + 1..])] + cs[1..])[1..] == cs[1..];
        }
    }
  }

  lemma HeadIsLine(f: Format, c: Chunk)
    requires ChunkGood(f, c)
    ensures OneLine(Head(f, c))
  {
    match c {
      case Quiet(_) =>
      case Keyed(key, value) =>
        EndIsOneLine();
        assert OneLine(key) && OneLine(Separator(f));
        assert !Spreads(f, value) ==> OneLine(value);
      case Raw(lines) =>
        forall i | 0 <= i < FirstLine(lines) ensures lines[i] != '\n' {
          FirstLineHas(lines, i);
        }
    }
  }

  lemma LineAt(b: string, p: int, line: string, rest: string, e: int)
    requires Ended(b) && At(b, p, (line + "\n") + rest) && OneLine(line) && e == p + |line|
    ensures p <= e < |b| && Scan(b, p, LineEnd) == e && b[e] == '\n' && At(b, p, line) && At(b, e + 1, rest)
    ensures b[p..e] == line
  {
    AtParts(b, p, line + "\n", rest);
    AtParts(b, p, line, "\n");
    assert b[e] == "\n"[0];
    forall i | p <= i < e ensures !Stops(LineEnd, b[i]) {
      assert b[i] == line[i - p];
    }
    ScanOver(b, p, LineEnd, e);
    AtSlice(b, p, line);
  }

  /** The first line, and what stands behind it. */
  lemma LineEnds(f: Format, b: string, p: int, cs: seq<Chunk>, e: int)
    requires Stands(f, b, p, cs) == true && cs != [] && e == p + |Head(f, cs[0])|
    ensures p <= e < |b| && Scan(b, p, LineEnd) == e && b[e] == '\n' && b[p..e] == Head(f, cs[0])
    ensures e + 1 < |b| && Stands(f, b, e + 1, Tail(f, cs)) == true
    ensures Worths(f, Tail(f, cs)) <= Worths(f, cs)
    ensures cs[0].Raw? ==> e - p + 1 + Worths(f, Tail(f, cs)) == Worths(f, cs)
  {
    var line, rest := Head(f, cs[0]), Text(f, Tail(f, cs));
    assert ChunkGood(f, cs[0]);
    HeadIsLine(f, cs[0]);
    TailText(f, cs);
    LineAt(b, p, line, rest, e);
    TailGood(f, cs);
    TailWorth(f, cs);
  }

  // ------------------------------------------------------------------ a value that is read from any line on

  /** From q on stands what Save writes for something that is worth no more than n. */
  ghost predicate Bounded(f: Format, b: string, q: int, n: int) {
    exists left :: Stands(f, b, q, left) && Worths(f, left) <= n
  }

  ghost predicate Inside(cs: seq<Chunk>) {
    cs != [] && (cs[0].Raw? || cs[0] == Quiet(END))
  }

  lemma TailInside(f: Format, cs: seq<Chunk>)
    requires Good(f, cs) && cs != [] && cs[0].Raw?
    ensures Inside(Tail(f, cs))
  {
  }

  lemma FirstOf(line: string, more: string)
    requires '\n' !in line
    ensures FirstLine(line + "\n" + more) == |line|
  {
    var v := line + "\n" + more;
    var k := FirstLine(v);
    assert v[|line|] == '\n';
    if k > |line| {
      FirstLineHas(v, |line|);
    }
  }

  lemma FreeOn(tags: iset<string>, line: string, more: string)
    requires '\n' !in line
    ensures TagFree(tags, line + "\n" + more) <==> CutTag(line) !in tags && TagFree(tags, more)
  {
    FirstOf(line, more);
    var v := line + "\n" + more;
    assert v[..|line|] == line && v[|line| + 1..] == more;
  }

  lemma EndIsCut()
    ensures CutTag(END) == END
  {
  }

  lemma EndNotFree(noCase: bool, more: string)
    ensures !TagFree(Like(noCase, END), END + "\n" + more)
  {
    EndIsOneLine();
    EndIsCut();
    EndIsLine(noCase);
    FreeOn(Like(noCase, END), END, more);
  }

  /** A newline at the end makes no tag. */
  lemma {:induction false} FreeLast(tags: iset<string>, v: string)
    requires "" !in tags && TagFree(tags, v)
    ensures TagFree(tags, v + "\n")
    decreases |v|
  {
    var k := FirstLine(v);
    var line := v[..k];
    forall i | 0 <= i < k ensures v[i] != '\n' {
      FirstLineHas(v, i);
    }
    if k < |v| {
      FreeLast(tags, v[k + 1..]);
      FreeOn(tags, line, v[k + 1..] + "\n");
      LinesShape(v, k, "\n");
      assert line + "\n" + (v[k + 1..] + "\n") == v + "\n";
    } else {
      FreeOn(tags, line, "");
      assert line + "\n" + "" == v + "\n";
    }
  }

  lemma {:induction false} LinesEnd(b: string, p: int, tag: string, noCase: bool, shifted: bool)
    requires Ended(b) && 0 <= p < |b|
    ensures var r := Lines(b, p, tag, noCase, shifted);
            r.Tagged? && r.text != [] ==> r.text[|r.text| - 1] == '\n'
    decreases |b| - p
  {
    var e := Scan(b, p, LineEnd);
    if b[e] != NUL {
      var q := AfterNewLine(b, e);
      LinesEnd(b, q, tag, noCase, shifted || q == e + 2);
    }
  }

  lemma {:induction false} CStringLine(b: string, p: int, e: int)
    requires Ended(b) && 0 <= p <= e < |b| && forall i :: p <= i < e ==> b[i] != NUL
    ensures CString(b, p) == b[p..e] + CString(b, e)
    decreases e - p
  {
    if p < e {
      CStringLine(b, p + 1, e);
    }
  }

  lemma RestIs(f: Format, b: string, p: int, cs: seq<Chunk>, line: string, next: int)
    requires Stands(f, b, p, cs) == true && Inside(cs) && line == Head(f, cs[0]) && next == p + |line| + 1
    ensures OneLine(line) && p < next < |b| && CString(b, p) == line + "\n" + CString(b, next)
    ensures cs[0].Raw? ==> Stands(f, b, next, Tail(f, cs)) == true && Inside(Tail(f, cs))
    ensures !cs[0].Raw? ==> line == END
  {
    LineEnds(f, b, p, cs, next - 1);
    assert ChunkGood(f, cs[0]);
    HeadIsLine(f, cs[0]);
    RestAfter(b, p, line, next);
    if cs[0].Raw? {
      TailInside(f, cs);
    }
  }

  lemma RestAfter(b: string, p: int, line: string, next: int)
    requires Ended(b) && 0 <= p < next < |b| && line == b[p..next - 1] && OneLine(line) && b[next - 1] == '\n'
    ensures CString(b, p) == line + "\n" + CString(b, next)
  {
    forall i | p <= i < next ensures b[i] != NUL {
      assert i < next - 1 ==> b[i] == line[i - p];
    }
    CStringLine(b, p, next);
    assert b[p..next] == line + "\n";
  }

  lemma EndStays(f: Format, line: string, rest: string, all: string)
    requires OneLine(line) && all == line + "\n" + rest && (line == END || !NoEnd(f, rest))
    ensures !NoEnd(f, all)
  {
    if line == END {
      EndNotFree(f.noCase, rest);
    } else {
      FreeOn(Like(f.noCase, END), line, rest);
    }
  }

  /** The rest of the text has the end tag in it. */
  lemma {:induction false} RestNotFree(f: Format, b: string, p: int, cs: seq<Chunk>)
    requires Stands(f, b, p, cs) == true && Inside(cs)
    ensures !NoEnd(f, CString(b, p))
    decreases |b| - p
  {
    var line := Head(f, cs[0]);
    var next := p + |line| + 1;
    RestIs(f, b, p, cs, line, next);
    if cs[0].Raw? {
      RestNotFree(f, b, next, Tail(f, cs));
    }
    EndStays(f, line, CString(b, next), CString(b, p));
  }

  ghost predicate NoEnd(f: Format, text: string) {
    TagFree(Like(f.noCase, END), text)
  }

  /** From next on no more is left than what cs is worth without what is taken. */
  ghost predicate Leaves(f: Format, b: string, cs: seq<Chunk>, taken: nat, next: int) {
    taken <= Worths(f, cs) && Bounded(f, b, next, Worths(f, cs) - taken)
  }

  /** A block takes nothing for nothing, unless it goes on past the end tag of saved values. */
  ghost predicate BlockFits(f: Format, b: string, cs: seq<Chunk>, r: Block) {
    Leaves(f, b, cs, 0, r.next) && (Inside(cs) && NoEnd(f, r.text) ==> r.Tagged? && Leaves(f, b, cs, |r.text|, r.next))
  }

  lemma NothingLeft(f: Format, b: string, p: int, tag: string)
    requires Stands(f, b, p, [])
    ensures BlockFits(f, b, [], Lines(b, p, tag, f.noCase, false))
  {
    assert b[p] == NUL;
    assert Worths(f, []) <= 0;
  }

  lemma TagHere(f: Format, b: string, p: int, cs: seq<Chunk>, e: int)
    requires Stands(f, b, p, cs) == true && cs != [] && e == p + |Head(f, cs[0])|
    ensures BlockFits(f, b, cs, Tagged([], p, e + 1))
  {
    LineEnds(f, b, p, cs, e);
  }

  lemma LinesOn(b: string, p: int, tag: string, noCase: bool, e: int, next: int, line: string, r: Block)
    requires Ended(b) && 0 <= p < |b| && e == Scan(b, p, LineEnd) && b[e] == '\n' && next == e + 1 < |b|
    requires line == b[p..e] && !Same(noCase, b[p..TagEnd(b, p, e)], tag)
    requires r == Lines(b, next, tag, noCase, false)
    ensures Lines(b, p, tag, noCase, false) == r.(text := line + "\n" + r.text)
  {
    assert AfterNewLine(b, e) == next != e + 2;
  }

  lemma LinesStop(b: string, p: int, tag: string, noCase: bool, e: int, next: int)
    requires Ended(b) && 0 <= p < |b| && e == Scan(b, p, LineEnd) && b[e] == '\n' && next == e + 1 < |b|
    requires Same(noCase, b[p..TagEnd(b, p, e)], tag)
    ensures Lines(b, p, tag, noCase, false) == Tagged([], p, next)
  {
  }

  /** The lines before a tag. */
  lemma {:induction false} LinesBound(f: Format, b: string, p: int, cs: seq<Chunk>, tag: string, l: Block)
    requires Stands(f, b, p, cs) == true && l == Lines(b, p, tag, f.noCase, false)
    ensures BlockFits(f, b, cs, l) == true
    decreases |b| - p
  {
    if cs == [] {
      NothingLeft(f, b, p, tag);
    } else {
      var line, rest := Head(f, cs[0]), Tail(f, cs);
      var e := p + |line|;
      var next := e + 1;
      LineStops(f, b, p, cs, e, next, line, rest);
      var r := Lines(b, next, tag, f.noCase, false);
      LinesBound(f, b, next, rest, tag, r);
      LinesStep(f, b, p, cs, line, e, rest, r);
      TagHere(f, b, p, cs, e);
      LinesAre(b, p, tag, f.noCase, e, next, line, r, l);
    }
  }

  lemma LinesAre(b: string, p: int, tag: string, noCase: bool, e: int, next: int, line: string, r: Block, l: Block)
    requires Ended(b) && 0 <= p < |b| && e == Scan(b, p, LineEnd) && b[e] == '\n' && next == e + 1 < |b|
    requires line == b[p..e] && r == Lines(b, next, tag, noCase, false) && l == Lines(b, p, tag, noCase, false)
    ensures l == Tagged([], p, next) || l == r.(text := line + "\n" + r.text)
  {
    if Same(noCase, b[p..TagEnd(b, p, e)], tag) {
      LinesStop(b, p, tag, noCase, e, next);
    } else {
      LinesOn(b, p, tag, noCase, e, next, line, r);
    }
  }

  lemma LineStops(f: Format, b: string, p: int, cs: seq<Chunk>, e: int, next: int, line: string, rest: seq<Chunk>)
    requires Stands(f, b, p, cs) == true && cs != [] && line == Head(f, cs[0]) && e == p + |line| && rest == Tail(f, cs)
    requires next == e + 1
    ensures p <= e && next < |b| && Scan(b, p, LineEnd) == e && b[e] == '\n' && line == b[p..e]
    ensures Stands(f, b, next, rest) == true && Worths(f, rest) <= Worths(f, cs)
  {
    LineEnds(f, b, p, cs, e);
  }

  lemma LinesStep(f: Format, b: string, p: int, cs: seq<Chunk>, line: string, e: int, rest: seq<Chunk>, r: Block)
    requires Stands(f, b, p, cs) == true && cs != [] && line == Head(f, cs[0]) && e == p + |line| && rest == Tail(f, cs)
    requires BlockFits(f, b, rest, r)
    ensures BlockFits(f, b, cs, r.(text := line + "\n" + r.text)) == true
  {
    LineEnds(f, b, p, cs, e);
    assert ChunkGood(f, cs[0]);
    HeadIsLine(f, cs[0]);
    if Inside(cs) {
      if cs[0].Raw? {
        TailInside(f, cs);
      }
      if line == END || !NoEnd(f, r.text) {
        EndStays(f, line, r.text, line + "\n" + r.text);
      }
    }
  }

  /** What a value counts. */
  ghost function Counted(f: Format, value: string): nat {
    if NoEnd(f, value) then |value| else 0
  }

  lemma EmptyIsNoEnd(noCase: bool)
    ensures "" !in Like(noCase, END)
  {
  }

  lemma WithoutLast(f: Format, text: string, v: string)
    requires text != [] && text[|text| - 1] == '\n' && v == text[..|text| - 1]
    ensures NoEnd(f, v) ==> NoEnd(f, text)
  {
    EmptyIsNoEnd(f.noCase);
    assert v + "\n" == text;
    if NoEnd(f, v) {
      FreeLast(Like(f.noCase, END), v);
    }
  }

  lemma BlockLeaves(f: Format, b: string, cs: seq<Chunk>, r: Block, v: string)
    requires BlockFits(f, b, cs, r) && Inside(cs) && (r.Open? ==> v == r.text)
    requires r.Tagged? ==> r.text != [] && r.text[|r.text| - 1] == '\n' && v == r.text[..|r.text| - 1]
    ensures Leaves(f, b, cs, Counted(f, v), r.next)
  {
    if r.Tagged? {
      WithoutLast(f, r.text, v);
    }
  }

  /** A value on several lines that starts inside another one takes no more than what it counts. */
  lemma MultiBound(f: Format, b: string, p: int, cs: seq<Chunk>, tag: string, r: (string, int))
    requires Stands(f, b, p, cs) == true && Inside(cs) && MultiLine(b, p, tag, f.noCase) == Some(r)
    ensures Leaves(f, b, cs, Counted(f, r.0), r.1)
  {
    var l := Lines(b, p, tag, f.noCase, false);
    LinesBound(f, b, p, cs, tag, l);
    if l.Tagged? && l.text == [] {
      var line := Head(f, cs[0]);
      var e := p + |line|;
      LineStops(f, b, p, cs, e, e + 1, line, Tail(f, cs));
      FirstValue(b, p, tag, f.noCase, e, r, l);
      FirstCounted(f, b, p, cs, e, line, r.0);
      FirstLeaves(f, b, p, cs, Tail(f, cs), r.1, Counted(f, r.0));
    } else {
      LinesEnd(b, p, tag, f.noCase, false);
      BlockLeaves(f, b, cs, l, r.0);
    }
  }

  lemma EndUncut(b: string, p: int, e: int)
    requires 0 <= p <= e <= |b| && b[p..e] == END
    ensures TagEnd(b, p, e) == e
  {
    assert b[e - 1] == b[p..e][|END| - 1];
  }

  lemma FirstCounted(f: Format, b: string, p: int, cs: seq<Chunk>, e: int, line: string, v: string)
    requires Stands(f, b, p, cs) == true && Inside(cs) && 0 <= p <= e < |b| && b[p..e] == line == Head(f, cs[0])
    requires if TagEnd(b, p, e) == e then v == CString(b, p) else |v| <= e - p
    ensures Counted(f, v) == 0 || (cs[0].Raw? && Counted(f, v) <= e - p)
  {
    if TagEnd(b, p, e) == e {
      RestNotFree(f, b, p, cs);
    } else if !cs[0].Raw? {
      EndUncut(b, p, e);
    }
  }

  lemma FirstLeaves(f: Format, b: string, p: int, cs: seq<Chunk>, rest: seq<Chunk>, next: int, taken: nat)
    requires Stands(f, b, p, cs) == true && Inside(cs) && rest == Tail(f, cs) && next == p + |Head(f, cs[0])| + 1
    requires taken == 0 || (cs[0].Raw? && taken < next - p)
    ensures Leaves(f, b, cs, taken, next)
  {
    LineEnds(f, b, p, cs, next - 1);
  }

  lemma FirstValue(b: string, p: int, tag: string, noCase: bool, e: int, r: (string, int), l: Block)
    requires Ended(b) && 0 <= p < |b| && e == Scan(b, p, LineEnd) && MultiLine(b, p, tag, noCase) == Some(r)
    requires l == Lines(b, p, tag, noCase, false) && l.Tagged? && l.text == [] && b[e] == '\n'
    ensures r.1 == e + 1
    ensures if TagEnd(b, p, e) == e then r.0 == CString(b, p) else |r.0| <= e - p
  {
  }

  // ------------------------------------------------------------------ what is found from any line on

  lemma FoundKeyAt(f: Format, b: string, p: int, q: int, e: int, v: (string, int))
    requires Ended(b) && 0 <= p < |b| && q == Scan(b, p, NotSpace) && e == Scan(b, q, Equals) && b[e] == '=' && e > q
    requires !IsComment(b[q]) && b[q] != '[' && P.Value(f, b, e) == Some(v)
    ensures Found(f, b, p) == Gain(f, b[q..TrimEnd(b, q, e)], v.0) + Found(f, b, v.1)
  {
  }

  lemma KeyReads(f: Format, b: string, p: int, key: string, value: string, next: int)
    requires Ended(b) && At(b, p, KeyText(f, key, value)) == true && ChunkGood(f, Keyed(key, value)) == true
    requires next == p + |KeyText(f, key, value)| < |b|
    ensures Found(f, b, p) == Gain(f, key, value) + Found(f, b, next)
  {
    var e := EqualsAt(f, p, key);
    KeyLineStands(f, b, p, key, value, e);
    KeyLineScans(b, p, key, e);
    SafeReadsBack(f, b, e, value, next);
    assert !IsSpace(b[p]) && Scan(b, p, NotSpace) == p;
    FoundKeyAt(f, b, p, p, e, (value, next));
  }

  lemma KeyedFound(f: Format, b: string, p: int, cs: seq<Chunk>, next: int)
    requires Stands(f, b, p, cs) == true && cs != [] && cs[0].Keyed? && next == p + |ChunkText(f, cs[0])|
    ensures p < next < |b| && Stands(f, b, next, cs[1..]) == true
    ensures Found(f, b, p) == Worth(f, cs[0]) + Found(f, b, next)
  {
    KeyedRest(f, b, p, cs, next);
    KeyReads(f, b, p, cs[0].key, cs[0].value, next);
  }

  lemma KeyedRest(f: Format, b: string, p: int, cs: seq<Chunk>, next: int)
    requires Stands(f, b, p, cs) == true && cs != [] && cs[0].Keyed? && next == p + |ChunkText(f, cs[0])|
    ensures p < next < |b| && Stands(f, b, next, cs[1..]) == true && Ended(b)
    ensures At(b, p, KeyText(f, cs[0].key, cs[0].value)) == true && ChunkGood(f, cs[0]) == true
  {
    var c, rest := ChunkText(f, cs[0]), Text(f, cs[1..]);
    assert ChunkGood(f, cs[0]);
    AtParts(b, p, c, rest);
    TailGood(f, cs);
  }

  lemma RawValue(f: Format, b: string, e: int, s: int, l: int, t: int, n: int, v: (string, int))
    requires F.Pieces(b, e, s, l, t, n) && P.Value(f, b, e) == Some(v)
    ensures (|v.0| <= l - e - 1 && v.1 == n) || (t >= s + 3 && MultiLine(b, n, b[s + 3..t], f.noCase) == Some(v))
  {
    if f.multiLine && P.IsMultiLineTag(b[s..t]) {
      F.PiecesTagged(f, b, e, s, l, t, n);
    } else {
      F.PiecesPlain(f, b, e, s, l, t, n);
    }
  }

  lemma RawScans(b: string, p: int, q: int, e: int, l: int, s: int)
    requires Ended(b) && 0 <= p < |b| && l == Scan(b, p, LineEnd) && p <= q < l && b[l] == '\n' && l + 1 < |b|
    requires e == Scan(b, q, Equals) && b[e] == '=' && e + 1 < |b| && s == Scan(b, e + 1, NotBlank)
    ensures e < l && s <= l && F.Pieces(b, e, s, l, TrimEnd(b, s, l), l + 1)
  {
    ScanIsFirst(b, q, Equals);
    assert Stops(Equals, '\n') && e < l;
    ScanIsFirst(b, e + 1, NotBlank);
    assert Stops(NotBlank, '\n') && s <= l;
    H.ScanTo(b, p, LineEnd, s);
  }

  lemma SingleLeaves(f: Format, b: string, p: int, cs: seq<Chunk>, l: int, taken: nat)
    requires Stands(f, b, p, cs) == true && cs != [] && cs[0].Raw? && l == p + |Head(f, cs[0])| && taken <= l - p
    ensures Leaves(f, b, cs, taken, l + 1)
  {
    LineEnds(f, b, p, cs, l);
  }

  lemma MoreLeaves(f: Format, b: string, p: int, cs: seq<Chunk>, l: int, key: nat, taken: nat, next: int)
    requires Stands(f, b, p, cs) == true && cs != [] && cs[0].Raw? && l == p + |Head(f, cs[0])| && key <= l - p
    requires Leaves(f, b, Tail(f, cs), taken, next)
    ensures Leaves(f, b, cs, key + taken, next)
  {
    LineEnds(f, b, p, cs, l);
  }

  /** A line of a value that is read as a key with its value. */
  lemma RawFits(f: Format, b: string, p: int, cs: seq<Chunk>, q: int, e: int, l: int, v: (string, int))
    requires Stands(f, b, p, cs) == true && cs != [] && cs[0].Raw? && l == p + |Head(f, cs[0])| && 0 <= p <= q < l < |b|
    requires e == Scan(b, q, Equals) && b[e] == '=' && e + 1 < |b| && P.Value(f, b, e) == Some(v)
    ensures Leaves(f, b, cs, TrimEnd(b, q, e) - q + Counted(f, v.0), v.1)
  {
    var rest, n := Tail(f, cs), l + 1;
    LineStops(f, b, p, cs, l, n, Head(f, cs[0]), rest);
    var s := Scan(b, e + 1, NotBlank);
    RawScans(b, p, q, e, l, s);
    var t := TrimEnd(b, s, l);
    RawValue(f, b, e, s, l, t, n, v);
    var key := TrimEnd(b, q, e) - q;
    if |v.0| <= l - e - 1 && v.1 == n {
      SingleLeaves(f, b, p, cs, l, key + Counted(f, v.0));
    } else {
      assert Good(f, cs);
      TailInside(f, cs);
      MultiBound(f, b, n, rest, b[s + 3..t], v);
      MoreLeaves(f, b, p, cs, l, key, Counted(f, v.0), v.1);
    }
  }

  // ------------------------------------------------------------------ any line

  /** The line from p to e is blank, is to be skipped from some place on, or has a key. */
  datatype Line = Blank | Skipped(at: int) | Key(q: int, e: int)

  ghost function LineOf(b: string, p: int): (r: Line)
    requires Ended(b) && 0 <= p < |b|
  {
    var q := Scan(b, p, NotSpace);
    if q > Scan(b, p, LineEnd) then Blank
    else if IsComment(b[q]) then Skipped(q)
    else if b[q] == '[' then Skipped(Scan(b, q + 1, NotSpace))
    else
      var e := Scan(b, q, Equals);
      if b[e] == '=' && e > q then Key(q, e) else Skipped(e)
  }

  lemma BlankFound(f: Format, b: string, p: int, next: int)
    requires Ended(b) && 0 <= p < |b| && LineOf(b, p).Blank? && next == Scan(b, p, LineEnd) + 1
    ensures next < |b| && Found(f, b, p) == Found(f, b, next)
  {
    FoundFrom(f, b, p, next);
  }

  lemma SkippedFound(f: Format, b: string, p: int)
    requires Ended(b) && 0 <= p < |b| && LineOf(b, p).Skipped? && b[Scan(b, p, NotSpace)] != NUL
    ensures p <= LineOf(b, p).at < |b| && Found(f, b, p) == Found(f, b, Scan(b, LineOf(b, p).at, LineEnd))
  {
  }

  lemma KeyFound(f: Format, b: string, p: int, v: Option<(string, int)>)
    requires Ended(b) && 0 <= p < |b| && LineOf(b, p).Key? && b[Scan(b, p, NotSpace)] != NUL
    requires v == P.Value(f, b, LineOf(b, p).e)
    ensures var r := LineOf(b, p); p <= r.q < r.e && r.e + 1 < |b| && r.e == Scan(b, r.q, Equals) && b[r.e] == '='
    ensures LineOf(b, p).q == Scan(b, p, NotSpace) < Scan(b, p, LineEnd)
    ensures v.None? ==> Found(f, b, p) == 0
    ensures v.Some? ==> var r := LineOf(b, p);
            Found(f, b, p) == Gain(f, b[r.q..TrimEnd(b, r.q, r.e)], v.value.0) + Found(f, b, v.value.1)
  {
  }

  lemma LineHasChar(f: Format, b: string, p: int, cs: seq<Chunk>)
    requires Stands(f, b, p, cs) == true && cs != [] && !LineOf(b, p).Blank?
    ensures b[Scan(b, p, NotSpace)] != NUL
  {
    var l := p + |Head(f, cs[0])|;
    LineEnds(f, b, p, cs, l);
    CharInLine(b, p, l, Scan(b, p, NotSpace));
  }

  lemma CharInLine(b: string, p: int, l: int, q: int)
    requires Ended(b) && 0 <= p < |b| && l == Scan(b, p, LineEnd) && b[l] == '\n' && p <= q <= l
    ensures b[q] != NUL
  {
    ScanIsFirst(b, p, LineEnd);
    assert Stops(LineEnd, NUL);
  }

  lemma QuietHasNoKey(f: Format, b: string, p: int, cs: seq<Chunk>)
    requires Stands(f, b, p, cs) == true && cs != [] && cs[0].Quiet?
    ensures !LineOf(b, p).Key?
  {
    var line := cs[0].line;
    var l := p + |line|;
    LineEnds(f, b, p, cs, l);
    assert ChunkGood(f, cs[0]);
    QuietLine(b, p, line, l);
  }

  lemma QuietLine(b: string, p: int, line: string, l: int)
    requires Ended(b) && 0 <= p <= l < |b| && l + 1 < |b| && b[p..l] == line && b[l] == '\n' && l == Scan(b, p, LineEnd)
    requires line == "" || line == END || line[0] in "[;#"
    ensures !LineOf(b, p).Key?
  {
    if line == "" {
      assert Scan(b, p, NotSpace) > p;
    } else {
      assert b[p] == line[0] && Scan(b, p, NotSpace) == p;
      if line == END {
        forall i | p <= i < l ensures !Stops(Equals, b[i]) {
          assert b[i] == line[i - p];
        }
        ScanOver(b, p, Equals, l);
      }
    }
  }

  lemma NothingFound(f: Format, b: string, n: int)
    requires Ended(b) && n == |b| - 1
    ensures Found(f, b, Scan(b, n, LineEnd)) == 0 == Found(f, b, n)
  {
    assert Scan(b, n, LineEnd) == n == Scan(b, n, NotSpace);
  }

  /** From the line of n on, no more is found than from p on is there. */
  lemma {:induction false} SkipBound(f: Format, b: string, p: int, cs: seq<Chunk>, n: int)
    requires Stands(f, b, p, cs) == true && p <= n < |b|
    ensures Found(f, b, Scan(b, n, LineEnd)) <= Worths(f, cs)
    decreases |b| - p, 0
  {
    if cs == [] {
      NothingFound(f, b, n);
    } else {
      var e, rest := p + |Head(f, cs[0])|, Tail(f, cs);
      var next := e + 1;
      LineStops(f, b, p, cs, e, next, Head(f, cs[0]), rest);
      if n <= e {
        H.ScanTo(b, p, LineEnd, n);
        FoundFrom(f, b, e, next);
        FoundBound(f, b, next, rest);
      } else {
        SkipBound(f, b, next, rest, n);
      }
    }
  }

  /** From any line on, no more is found than is saved there: also from inside a value. */
  lemma {:induction false} FoundBound(f: Format, b: string, p: int, cs: seq<Chunk>)
    requires Stands(f, b, p, cs) == true
    ensures Found(f, b, p) <= Worths(f, cs)
    decreases |b| - p, 1
  {
    if cs == [] {
      NothingFound(f, b, p);
    } else if cs[0].Keyed? {
      var next := p + |ChunkText(f, cs[0])|;
      KeyedFound(f, b, p, cs, next);
      FoundBound(f, b, next, cs[1..]);
    } else {
      var e, rest := p + |Head(f, cs[0])|, Tail(f, cs);
      var next := e + 1;
      LineStops(f, b, p, cs, e, next, Head(f, cs[0]), rest);
      match LineOf(b, p)
      case Blank =>
        BlankFound(f, b, p, next);
        FoundBound(f, b, next, rest);
      case Skipped(at) =>
        LineHasChar(f, b, p, cs);
        SkippedFound(f, b, p);
        SkipBound(f, b, p, cs, at);
      case Key(_, _) =>
        KeyBound(f, b, p, cs);
    }
  }

  lemma KeyBound(f: Format, b: string, p: int, cs: seq<Chunk>)
    requires Stands(f, b, p, cs) == true && cs != [] && !cs[0].Keyed? && LineOf(b, p).Key?
    ensures Found(f, b, p) <= Worths(f, cs)
    decreases |b| - p, 0
  {
    LineHasChar(f, b, p, cs);
    if cs[0].Quiet? {
      QuietHasNoKey(f, b, p, cs);
    } else {
      var q, e := LineOf(b, p).q, LineOf(b, p).e;
      KeyIsNotEnd(b, p, q, e);
      var v := P.Value(f, b, e);
      KeyFound(f, b, p, v);
      if v.Some? {
        RawTakes(f, b, p, cs, q, e, v.value);
        var taken := TrimEnd(b, q, e) - q + Counted(f, v.value.0);
        var left :| Stands(f, b, v.value.1, left) == true && Worths(f, left) <= Worths(f, cs) - taken;
        FoundBound(f, b, v.value.1, left);
      }
    }
  }

  lemma KeyIsNotEnd(b: string, p: int, q: int, e: int)
    requires Ended(b) && 0 <= p < |b| && LineOf(b, p) == Key(q, e)
    ensures p <= q < e && e + 1 < |b|
  {
  }

  lemma RawTakes(f: Format, b: string, p: int, cs: seq<Chunk>, q: int, e: int, v: (string, int))
    requires Stands(f, b, p, cs) == true && cs != [] && cs[0].Raw? && p <= q < Scan(b, p, LineEnd)
    requires e == Scan(b, q, Equals) && b[e] == '=' && e + 1 < |b| && P.Value(f, b, e) == Some(v)
    ensures Leaves(f, b, cs, TrimEnd(b, q, e) - q + Counted(f, v.0), v.1)
  {
    var l := p + |Head(f, cs[0])|;
    LineEnds(f, b, p, cs, l);
    RawFits(f, b, p, cs, q, e, l, v);
  }

  // ------------------------------------------------------------------ a whole text

  function PieceChunks(pieces: seq<string>): (r: seq<Chunk>)
    ensures |r| == |pieces| && forall i :: 0 <= i < |r| ==> r[i] == Quiet(pieces[i])
  {
    if pieces == [] then [] else [Quiet(pieces[0])] + PieceChunks(pieces[1..])
  }

  function CommentChunks(comment: Option<string>): seq<Chunk> {
    if comment.None? then [] else PieceChunks(V.Pieces(comment.value))
  }

  function ItemChunk(i: Item): seq<Chunk> {
    (if i.comment.Some? then [Quiet("")] else []) + (CommentChunks(i.comment) + [Keyed(i.key, i.value)])
  }

  function ItemChunks(items: seq<Item>): seq<Chunk> {
    if items == [] then [] else ItemChunk(items[0]) + ItemChunks(items[1..])
  }

  function NameChunks(name: string): seq<Chunk> {
    if name == [] then [] else [Quiet("[" + name + "]")]
  }

  function GapChunks(need: bool): seq<Chunk> {
    if need then [Quiet(""), Quiet("")] else []
  }

  function SectChunks(s: Sect, need: bool): seq<Chunk> {
    GapChunks(need) + (CommentChunks(s.comment) + (NameChunks(s.name) + ItemChunks(s.items)))
  }

  function Chunks(sects: seq<Sect>, need: bool): seq<Chunk> {
    if sects == [] then [] else SectChunks(sects[0], need) + Chunks(sects[1..], true)
  }

  lemma {:induction false} ChunksConcat(f: Format, a: seq<Chunk>, b: seq<Chunk>)
    ensures Text(f, a + b) == Text(f, a) + Text(f, b)
    ensures Worths(f, a + b) == Worths(f, a) + Worths(f, b)
    decreases |a|
  {
    if a == [] {
      assert a + b == b;
    } else {
      assert (a + b)[1..] == a[1..] + b && (a + b)[0] == a[0];
      ChunksConcat(f, a[1..], b);
    }
  }

  lemma OneChunk(f: Format, c: Chunk)
    ensures Text(f, [c]) == ChunkText(f, c) && Worths(f, [c]) == Worth(f, c)
  {
    assert [c][1..] == [];
    assert Text(f, [c][1..]) == "" && Worths(f, [c][1..]) == 0;
  }

  lemma {:induction false} PieceChunksAre(f: Format, pieces: seq<string>)
    ensures Text(f, PieceChunks(pieces)) == N.Raw(pieces) && Worths(f, PieceChunks(pieces)) == 0
    decreases |pieces|
  {
    if pieces != [] {
      PieceChunksAre(f, pieces[1..]);
      assert PieceChunks(pieces)[1..] == PieceChunks(pieces[1..]);
    }
  }

  lemma CommentChunksAre(f: Format, comment: Option<string>)
    requires V.CommentOk(comment)
    ensures Text(f, CommentChunks(comment)) == (if comment.Some? then MultiLineOut(comment.value) else "")
    ensures Worths(f, CommentChunks(comment)) == 0
  {
    if comment.Some? {
      PieceChunksAre(f, V.Pieces(comment.value));
      V.PieceLinesText(V.Pieces(comment.value));
      V.CommentText(comment.value);
    }
  }

  lemma ItemChunkIs(f: Format, i: Item)
    requires V.CommentOk(i.comment)
    ensures Text(f, ItemChunk(i)) == ItemText(f, i) && Worths(f, ItemChunk(i)) == Gain(f, i.key, i.value)
  {
    var blank: seq<Chunk> := if i.comment.Some? then [Quiet("")] else [];
    ChunksConcat(f, blank, CommentChunks(i.comment) + [Keyed(i.key, i.value)]);
    ChunksConcat(f, CommentChunks(i.comment), [Keyed(i.key, i.value)]);
    CommentChunksAre(f, i.comment);
    OneChunk(f, Quiet(""));
    OneChunk(f, Keyed(i.key, i.value));
    V.ItemAlgebra(if i.comment.Some? then "\n" else "", if i.comment.Some? then MultiLineOut(i.comment.value) else "",
                  i.key, Separator(f), ValueText(f, i.value));
  }

  lemma {:induction false} ItemChunksAre(f: Format, items: seq<Item>)
    requires V.ItemsSafe(f, items)
    ensures Text(f, ItemChunks(items)) == ItemsText(f, items) && Worths(f, ItemChunks(items)) == Size(f, items)
    decreases |items|
  {
    if items != [] {
      V.ItemsTail(f, items);
      ItemChunksAre(f, items[1..]);
      ItemChunkIs(f, items[0]);
      ChunksConcat(f, ItemChunk(items[0]), ItemChunks(items[1..]));
    }
  }

  lemma NameChunksAre(f: Format, name: string)
    ensures Text(f, NameChunks(name)) == Header(name) && Worths(f, NameChunks(name)) == 0
  {
    if name != [] {
      var cs := NameChunks(name);
      assert cs[1..] == [];
      assert Text(f, cs[1..]) == "" && Worths(f, cs[1..]) == 0;
      assert ("[" + name + "]") + "\n" == "[" + name + "]\n";
    }
  }

  lemma GapChunksAre(f: Format, need: bool)
    ensures Text(f, GapChunks(need)) == D.Gap(need) && Worths(f, GapChunks(need)) == 0
  {
    if need {
      var cs := GapChunks(need);
      assert cs[1..] == [Quiet("")] && cs[1..][1..] == [];
      assert Text(f, cs[1..][1..]) == "" && Worths(f, cs[1..][1..]) == 0;
      assert Text(f, cs[1..]) == "\n" && Worths(f, cs[1..]) == 0;
    }
  }

  lemma SectChunksAre(f: Format, s: Sect, need: bool)
    requires V.SectSafe(f, s)
    ensures Text(f, SectChunks(s, need)) == SectText(f, s, need) && Worths(f, SectChunks(s, need)) == Size(f, s.items)
  {
    var items := ItemChunks(s.items);
    ChunksConcat(f, GapChunks(need), CommentChunks(s.comment) + (NameChunks(s.name) + items));
    ChunksConcat(f, CommentChunks(s.comment), NameChunks(s.name) + items);
    ChunksConcat(f, NameChunks(s.name), items);
    GapChunksAre(f, need);
    CommentChunksAre(f, s.comment);
    NameChunksAre(f, s.name);
    ItemChunksAre(f, s.items);
    V.SectAlgebra(D.Gap(need), if s.comment.Some? then MultiLineOut(s.comment.value) else "", Header(s.name),
                  ItemsText(f, s.items));
  }

  /** The chunks are what Save writes, and they are worth what the content is. */
  lemma {:induction false} ChunksAre(f: Format, sects: seq<Sect>, need: bool)
    requires V.SectsSafe(f, sects)
    ensures Text(f, Chunks(sects, need)) == SectsText(f, sects, need)
    ensures Worths(f, Chunks(sects, need)) == Sizes(f, sects)
    decreases |sects|
  {
    if sects != [] {
      V.SectsTail(f, sects);
      SectChunksAre(f, sects[0], need);
      ChunksAre(f, sects[1..], true);
      ChunksConcat(f, SectChunks(sects[0], need), Chunks(sects[1..], true));
    }
  }

  /** Nothing in the middle of a value. */
  ghost predicate Whole(f: Format, cs: seq<Chunk>) {
    forall i :: 0 <= i < |cs| ==> ChunkGood(f, cs[i]) && !cs[i].Raw?
  }

  lemma WholeConcat(f: Format, a: seq<Chunk>, b: seq<Chunk>)
    requires Whole(f, a) == true && Whole(f, b) == true
    ensures Whole(f, a + b) == true && Good(f, a + b) == true
  {
    var c := a + b;
    forall i | 0 <= i < |c| ensures ChunkGood(f, c[i]) && !c[i].Raw? {
      if i < |a| {
        assert c[i] == a[i];
      } else {
        assert c[i] == b[i - |a|];
      }
    }
  }

  lemma CommentChunksGood(f: Format, comment: Option<string>)
    requires V.CommentOk(comment)
    ensures Whole(f, CommentChunks(comment)) == true
  {
    if comment.Some? {
      var pieces := V.Pieces(comment.value);
      forall i | 0 <= i < |pieces| ensures ChunkGood(f, Quiet(pieces[i])) {
        V.PiecesInLine(comment.value, i);
      }
    }
  }

  lemma ItemChunkGood(f: Format, i: Item)
    requires V.ItemSafe(f, i)
    ensures Whole(f, ItemChunk(i)) == true
  {
    var blank: seq<Chunk> := if i.comment.Some? then [Quiet("")] else [];
    CommentChunksGood(f, i.comment);
    WholeConcat(f, CommentChunks(i.comment), [Keyed(i.key, i.value)]);
    WholeConcat(f, blank, CommentChunks(i.comment) + [Keyed(i.key, i.value)]);
  }

  lemma {:induction false} ItemChunksGood(f: Format, items: seq<Item>)
    requires V.ItemsSafe(f, items)
    ensures Whole(f, ItemChunks(items)) == true
    decreases |items|
  {
    if items != [] {
      V.ItemsTail(f, items);
      ItemChunkGood(f, items[0]);
      ItemChunksGood(f, items[1..]);
      WholeConcat(f, ItemChunk(items[0]), ItemChunks(items[1..]));
    }
  }

  lemma NameChunksGood(f: Format, name: string)
    requires NoNul(name) && NameSafe(name)
    ensures Whole(f, NameChunks(name)) == true
  {
  }

  lemma GapChunksGood(f: Format, need: bool)
    ensures Whole(f, GapChunks(need)) == true
  {
  }

  lemma SectChunksGood(f: Format, s: Sect, need: bool)
    requires V.SectSafe(f, s)
    ensures Whole(f, SectChunks(s, need)) == true
  {
    var items := ItemChunks(s.items);
    ItemChunksGood(f, s.items);
    CommentChunksGood(f, s.comment);
    NameChunksGood(f, s.name);
    GapChunksGood(f, need);
    WholeConcat(f, NameChunks(s.name), items);
    WholeConcat(f, CommentChunks(s.comment), NameChunks(s.name) + items);
    WholeConcat(f, GapChunks(need), CommentChunks(s.comment) + (NameChunks(s.name) + items));
  }

  lemma {:induction false} ChunksGood(f: Format, sects: seq<Sect>, need: bool)
    requires V.SectsSafe(f, sects)
    ensures Whole(f, Chunks(sects, need)) && Good(f, Chunks(sects, need))
    decreases |sects|
  {
    if sects != [] {
      V.SectsTail(f, sects);
      SectChunksGood(f, sects[0], need);
      ChunksGood(f, sects[1..], true);
      WholeConcat(f, SectChunks(sects[0], need), Chunks(sects[1..], true));
    }
  }
}
