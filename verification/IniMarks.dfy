/** A text whose first key begins like a signature: without these three characters less is to be found in it than was
    saved, so that it cannot come back. A clause that says `P(..) == true` states P as one fact, which the verifier does
    not unfold there. */
module IniMarks {
  import opened Options
  import opened IniFormat
  import opened IniStore
  import opened IniText
  import opened IniLoad
  import opened IniPrint
  import opened IniValues
  import opened IniEntries
  import opened IniContent
  import opened IniGains
  import opened IniChunks
  import D = IniDocument
  import H = IniHeaders
  import P = IniParse
  import S = IniSections
  import V = IniSaved

  // ------------------------------------------------------------------ a first key that loses its first characters

  lemma ShiftStands(f: Format, b: string, p: int, c: string, q: int, cs: seq<Chunk>)
    requires Stands(f, c, q, cs) == true && 3 <= q && p == q - 3 && |c| > 3 && b == c[3..]
    ensures Stands(f, b, p, cs) == true
  {
    var text := Text(f, cs);
    forall i | 0 <= i < |text| ensures b[p + i] == text[i] {
      assert c[q + i] == text[i];
    }
  }

  /** The key at 0 is what is left of a saved key; what it was saved with stands behind it. */
  ghost predicate CutKey(f: Format, b: string, key: string, value: string, rest: seq<Chunk>, e: int, next: int) {
    && Ended(b) && At(b, 0, KeyText(f, key, value)) && next == |KeyText(f, key, value)| && e == EqualsAt(f, 0, key)
    && NoNul(key) && NoNul(value) && ValueSafe(f, value) && OneLine(key) && '=' !in key
    && Stands(f, b, next, rest)
  }

  lemma CutScans(b: string, key: string, e: int)
    requires Ended(b) && |key| <= e < |b| && b[e] == '=' && b[..|key|] == key && OneLine(key) && '=' !in key
    requires e <= |key| + 1 && (e == |key| + 1 ==> b[|key|] == ' ')
    ensures Scan(b, 0, NotSpace) <= e && Scan(b, Scan(b, 0, NotSpace), Equals) == e
    ensures b[Scan(b, 0, NotSpace)] != NUL
  {
    var q := Scan(b, 0, NotSpace);
    ScanIsFirst(b, 0, NotSpace);
    assert Stops(NotSpace, '=') && q <= e;
    forall i | q <= i < e ensures !Stops(Equals, b[i]) {
      if i < |key| {
        assert b[i] == key[i];
      }
    }
    ScanOver(b, q, Equals, e);
    assert q < e ==> b[q] == key[q];
  }

  lemma CutValue(f: Format, b: string, key: string, value: string, rest: seq<Chunk>, e: int, next: int)
    requires CutKey(f, b, key, value, rest, e, next)
    ensures |key| <= e < |b| - 1 && b[e] == '=' && b[..|key|] == key && e <= |key| + 1
    ensures e == |key| + 1 ==> b[|key|] == ' '
    ensures P.Value(f, b, e) == Some((value, next))
  {
    KeyLineStands(f, b, 0, key, value, e);
    SafeReadsBack(f, b, e, value, next);
    AtSlice(b, 0, key);
  }

  lemma CutFound(f: Format, b: string, e: int, value: string, next: int)
    requires Ended(b) && 0 <= e && e + 1 < |b| && P.Value(f, b, e) == Some((value, next)) && LineOf(b, 0).Key?
    requires b[e] == '=' && Scan(b, 0, NotSpace) <= e && Scan(b, Scan(b, 0, NotSpace), Equals) == e
    ensures 0 <= next < |b| && Found(f, b, 0) <= e + Counted(f, value) + Found(f, b, next)
  {
    KeyFound(f, b, 0, Some((value, next)));
  }

  lemma CutKeyReads(f: Format, b: string, key: string, value: string, rest: seq<Chunk>, e: int, next: int)
    requires CutKey(f, b, key, value, rest, e, next) == true && LineOf(b, 0).Key?
    ensures Found(f, b, 0) <= |key| + 1 + Counted(f, value) + Worths(f, rest)
  {
    CutValue(f, b, key, value, rest, e, next);
    CutScans(b, key, e);
    CutFound(f, b, e, value, next);
    FoundBound(f, b, next, rest);
  }

  lemma CutSkipped(f: Format, b: string, next: int, rest: seq<Chunk>)
    requires Ended(b) && next == Scan(b, 0, LineEnd) + 1 && next < |b| && b[next - 1] == '\n'
    requires Stands(f, b, next, rest) == true && !LineOf(b, 0).Key? && b[Scan(b, 0, NotSpace)] != NUL
    ensures Found(f, b, 0) <= Worths(f, rest)
  {
    FoundBound(f, b, next, rest);
    if LineOf(b, 0).Blank? {
      BlankFound(f, b, 0, next);
    } else {
      var n := LineOf(b, 0).at;
      SkippedFound(f, b, 0);
      if n < next {
        H.ScanTo(b, 0, LineEnd, n);
        FoundFrom(f, b, next - 1, next);
      } else {
        SkipBound(f, b, next, rest, n);
      }
    }
  }

  lemma CutLine(f: Format, b: string, key: string, value: string, rest: seq<Chunk>, e: int, next: int)
    requires CutKey(f, b, key, value, rest, e, next) == true
    ensures b[Scan(b, 0, NotSpace)] != NUL
  {
    CutValue(f, b, key, value, rest, e, next);
    CutScans(b, key, e);
  }

  lemma MarkedText(f: Format, key: string, value: string, rest: seq<Chunk>)
    ensures Text(f, [Keyed(D.SIGNATURE + key, value)] + rest)[3..] == KeyText(f, key, value) + Text(f, rest)
  {
    var cs := [Keyed(D.SIGNATURE + key, value)] + rest;
    assert cs[1..] == rest;
    MarkAlgebra(D.SIGNATURE, key, Separator(f) + (ValueText(f, value) + "\n"), Text(f, rest));
  }

  lemma MarkAlgebra(mark: string, key: string, line: string, rest: string)
    requires |mark| == 3
    ensures (((mark + key) + line) + rest)[3..] == (key + line) + rest
  {
  }

  lemma TextStands(f: Format, cs: seq<Chunk>, b: string)
    requires Whole(f, cs) && b == Text(f, cs) + [NUL]
    ensures Stands(f, b, 0, cs) == true
  {
    assert At(b, 0, Text(f, cs));
  }

  lemma CutRest(f: Format, cs: seq<Chunk>, b: string, next: int)
    requires cs != [] && cs[0].Keyed? && Whole(f, cs) && |Text(f, cs)| >= 3 && b == Text(f, cs)[3..] + [NUL]
    requires next == |ChunkText(f, cs[0])| - 3 >= 0
    ensures Stands(f, b, next, cs[1..]) == true
  {
    var c := Text(f, cs) + [NUL];
    TextStands(f, cs, c);
    KeyedFound(f, c, 0, cs, next + 3);
    assert b == c[3..];
    ShiftStands(f, b, next, c, next + 3, cs[1..]);
  }

  lemma FrontStands(b: string, s: string, t: string)
    requires b == s + t + [NUL]
    ensures At(b, 0, s) && Ended(b)
  {
  }

  lemma CutStands(f: Format, key: string, value: string, cs: seq<Chunk>, b: string, next: int)
    requires cs != [] && cs[0] == Keyed(D.SIGNATURE + key, value) && Whole(f, cs)
    requires |Text(f, cs)| >= 3 && b == Text(f, cs)[3..] + [NUL]
    requires next == |KeyText(f, key, value)|
    ensures CutKey(f, b, key, value, cs[1..], EqualsAt(f, 0, key), next) == true
  {
    CutRest(f, cs, b, next);
    assert ChunkGood(f, cs[0]);
    assert cs == [cs[0]] + cs[1..];
    MarkedText(f, key, value, cs[1..]);
    FrontStands(b, KeyText(f, key, value), Text(f, cs[1..]));
    CutSafe(key);
  }

  lemma MarkedLong(f: Format, key: string, value: string, cs: seq<Chunk>)
    requires cs != [] && cs[0] == Keyed(D.SIGNATURE + key, value)
    ensures |Text(f, cs)| > 3
  {
  }

  lemma CutSafe(key: string)
    requires KeySafe(D.SIGNATURE + key) && NoNul(D.SIGNATURE + key)
    ensures NoNul(key) && OneLine(key) && '=' !in key
  {
    var k := D.SIGNATURE + key;
    forall i | 0 <= i < |key| ensures key[i] != NUL && !IsNewLineChar(key[i]) && key[i] != '=' {
      assert key[i] == k[i + 3];
    }
  }

  lemma CutEnds(f: Format, cs: seq<Chunk>, b: string, l: int)
    requires cs != [] && cs[0].Keyed? && |cs[0].key| >= 3 && Whole(f, cs)
    requires |Text(f, cs)| >= 3 && b == Text(f, cs)[3..] + [NUL]
    requires l == |Head(f, cs[0])|
    ensures 3 <= l && l - 2 < |b| && Stands(f, b, l - 2, Tail(f, cs)) == true
    ensures Scan(b, 0, LineEnd) == l - 3 && b[l - 3] == '\n'
  {
    var c := Text(f, cs) + [NUL];
    TextStands(f, cs, c);
    LineEnds(f, c, 0, cs, l);
    assert b == c[3..];
    ShiftStands(f, b, l - 2, c, l + 1, Tail(f, cs));
    ShiftScan(b, c, l);
  }

  lemma ShiftScan(b: string, c: string, l: int)
    requires Ended(c) && 3 <= l < |c| - 1 && b == c[3..] && Scan(c, 0, LineEnd) == l
    ensures Ended(b) && Scan(b, 0, LineEnd) == l - 3
  {
    ScanIsFirst(c, 0, LineEnd);
    forall i | 0 <= i < l - 3 ensures !Stops(LineEnd, b[i]) {
      assert b[i] == c[i + 3];
    }
    ScanOver(b, 0, LineEnd, l - 3);
  }

  lemma CutWorth(f: Format, key: string, value: string, cs: seq<Chunk>)
    requires cs != [] && cs[0] == Keyed(D.SIGNATURE + key, value) && Whole(f, cs)
    ensures Worths(f, Tail(f, cs)) < Worths(f, cs)
    ensures |key| + 1 + Counted(f, value) + Worths(f, cs[1..]) < Worths(f, cs)
  {
    assert ChunkGood(f, cs[0]);
    if Spreads(f, value) {
      var t := [Raw(value), Quiet(END)] + cs[1..];
      assert t[1..][1..] == cs[1..] && t[1..][0] == Quiet(END);
    }
  }

  /** Without the first three characters of its first key there is less to be found in a text than was saved. */
  lemma MarkedFound(f: Format, key: string, value: string, cs: seq<Chunk>, b: string)
    requires cs != [] && cs[0] == Keyed(D.SIGNATURE + key, value) && Whole(f, cs)
    requires |Text(f, cs)| >= 3 && b == Text(f, cs)[3..] + [NUL]
    ensures Found(f, b, 0) < Worths(f, cs)
  {
    var e, next, l := EqualsAt(f, 0, key), |KeyText(f, key, value)|, |Head(f, cs[0])|;
    CutStands(f, key, value, cs, b, next);
    CutWorth(f, key, value, cs);
    if LineOf(b, 0).Key? {
      CutKeyReads(f, b, key, value, cs[1..], e, next);
    } else {
      CutLine(f, b, key, value, cs[1..], e, next);
      CutEnds(f, cs, b, l);
      CutSkipped(f, b, l - 2, Tail(f, cs));
    }
  }

  // ------------------------------------------------------------------ what loading makes of it

  /** The text would begin with the first key, and the key begins with what LoadData takes for a signature. */
  predicate MarkedFirst(sects: seq<Sect>) {
    && sects != [] && sects[0].name == [] && sects[0].items != []
    && sects[0].items[0].comment.None? && D.Marked(sects[0].items[0].key)
  }

  lemma KeyMarked(f: Format, key: string, value: string, rest: string)
    requires key != [] && KeySafe(key)
    ensures D.Marked(KeyText(f, key, value) + rest) <==> D.Marked(key)
  {
    var text := KeyText(f, key, value) + rest;
    if |key| < 3 {
      assert text[|key|] == Separator(f)[0] && text[|key|] != D.SIGNATURE[|key|];
    } else {
      assert text[..3] == key[..3];
    }
  }

  lemma FirstChunk(f: Format, sects: seq<Sect>, cs: seq<Chunk>)
    requires V.SectsSafe(f, sects) && cs == Chunks(sects, false)
    ensures MarkedFirst(sects) <==> cs != [] && cs[0].Keyed? && D.Marked(cs[0].key)
    ensures MarkedFirst(sects) ==> cs[0] == Keyed(sects[0].items[0].key, sects[0].items[0].value)
  {
    if sects != [] {
      var s := sects[0];
      V.SectsTail(f, sects);
      if s.comment.Some? {
        assert cs[0] == CommentChunks(s.comment)[0];
      } else if s.name != [] {
        assert cs[0] == NameChunks(s.name)[0];
      } else if s.items == [] {
        assert cs == Chunks(sects[1..], true);
      } else {
        assert cs[0] == ItemChunk(s.items[0])[0];
      }
    }
  }

  lemma QuietFirst(f: Format, line: string, rest: string)
    requires line == "" || line == END || line[0] in "[;#"
    ensures !D.Marked((line + "\n") + rest)
  {
    var text := (line + "\n") + rest;
    assert text[0] == if line == "" then '\n' else line[0];
  }

  /** Nothing else makes the saved text begin with a signature. */
  lemma MarkedIffFirst(f: Format, sects: seq<Sect>)
    requires V.SectsSafe(f, sects)
    ensures D.Marked(SectsText(f, sects, false)) <==> MarkedFirst(sects)
  {
    var cs := Chunks(sects, false);
    ChunksAre(f, sects, false);
    ChunksGood(f, sects, false);
    FirstChunk(f, sects, cs);
    if cs != [] {
      assert ChunkGood(f, cs[0]);
      var rest := Text(f, cs[1..]);
      if cs[0].Keyed? {
        KeyMarked(f, cs[0].key, cs[0].value, rest);
      } else {
        QuietFirst(f, cs[0].line, rest);
      }
    }
  }

  /** Such a key does not come back, whatever is left of it and whatever its value is. */
  lemma MarkedLost(f: Format, sects: seq<Sect>)
    requires V.SectsSafe(f, sects) && MarkedFirst(sects)
    ensures var r := D.LoadText(f, SectsText(f, sects, false), Store([], 0), None);
            Content(f, r.0) != sects && S.Ok(f, r.0)
  {
    var i, text, cs := sects[0].items[0], SectsText(f, sects, false), Chunks(sects, false);
    var key := i.key[3..];
    assert i.key == D.SIGNATURE + key;
    ChunksAre(f, sects, false);
    ChunksGood(f, sects, false);
    assert cs[0] == Keyed(D.SIGNATURE + key, i.value);
    MarkedLong(f, key, i.value, cs);
    MarkedFound(f, key, i.value, cs, text[3..] + [NUL]);
    MarkedIffFirst(f, sects);
    LoadedContent(f, text[3..]);
  }
}
