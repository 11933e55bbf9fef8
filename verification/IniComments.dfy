/** What a comment block is, said without the loop: its lines with one newline between them, blank lines empty, white
    space before a comment gone. */
module IniComments {
  import opened IniText

  /** The lines of b from p to end, which is the end of a line; CRLF, CR and LF each end one. */
  function LinesOf(b: string, p: int, end: int): (r: seq<string>)
    requires Ended(b) && 0 <= p <= end < |b|
    ensures r != []
    decreases |b| - p
  {
    var e := Scan(b, p, LineEnd);
    if e >= end || b[e] == NUL || AfterNewLine(b, e) > end then [b[p..end]]
    else [b[p..e]] + LinesOf(b, AfterNewLine(b, e), end)
  }

  function TrimStart(s: string): string {
    if s != [] && IsSpace(s[0]) then TrimStart(s[1..]) else s
  }

  function Trimmed(lines: seq<string>): (r: seq<string>)
    ensures |r| == |lines|
  {
    if lines == [] then [] else [TrimStart(lines[0])] + Trimmed(lines[1..])
  }

  function Joined(lines: seq<string>): string {
    if lines == [] then "" else if |lines| == 1 then lines[0] else lines[0] + "\n" + Joined(lines[1..])
  }

  function BlockText(b: string, p: int, end: int): string
    requires Ended(b) && 0 <= p <= end < |b|
  {
    Joined(Trimmed(LinesOf(b, p, end)))
  }

  /** The end of the last line of the comment block at p. */
  function BlockEnd(b: string, p: int, blank: bool): (r: int)
    requires Ended(b) && 0 <= p < |b| && IsComment(b[p])
    ensures p < r < |b| && (b[r] == NUL || IsNewLineChar(b[r]))
    decreases |b| - p
  {
    var e := Scan(b, p, LineEnd);
    if b[e] == NUL then e
    else
      var q := AfterNewLine(b, e);
      if IsComment(b[q]) then BlockEnd(b, q, blank)
      else
        var s := SkipBlank(b, q, 0).1;
        if blank && IsComment(b[s]) then BlockEnd(b, s, blank) else e
  }

  lemma JoinedCons(line: string, rest: seq<string>)
    requires rest != []
    ensures Joined([line] + rest) == line + "\n" + Joined(rest)
  {
    assert ([line] + rest)[1..] == rest;
  }

  lemma TrimmedCons(line: string, rest: seq<string>)
    ensures Trimmed([line] + rest) == [TrimStart(line)] + Trimmed(rest)
  {
    assert ([line] + rest)[1..] == rest;
  }

  /** A block is its first line and the rest of it. */
  lemma BlockFirst(b: string, p: int, end: int)
    requires Ended(b) && 0 <= p <= end < |b|
    requires var e := Scan(b, p, LineEnd); b[e] != NUL && AfterNewLine(b, e) <= end
    ensures var e := Scan(b, p, LineEnd);
            BlockText(b, p, end) == TrimStart(b[p..e]) + "\n" + BlockText(b, AfterNewLine(b, e), end)
  {
    var e := Scan(b, p, LineEnd);
    var rest := LinesOf(b, AfterNewLine(b, e), end);
    TrimmedCons(b[p..e], rest);
    JoinedCons(TrimStart(b[p..e]), Trimmed(rest));
  }

  lemma BlockSpace(b: string, p: int, end: int)
    requires Ended(b) && 0 <= p < end < |b| && IsSpace(b[p]) && !IsNewLineChar(b[p])
    ensures BlockText(b, p, end) == BlockText(b, p + 1, end)
  {
    var e := Scan(b, p, LineEnd);
    if e >= end || b[e] == NUL || AfterNewLine(b, e) > end {
      assert b[p..end][1..] == b[p + 1..end];
      TrimmedCons(b[p..end], []);
      TrimmedCons(b[p + 1..end], []);
    } else {
      assert b[p..e][1..] == b[p + 1..e];
      BlockFirst(b, p, end);
      BlockFirst(b, p + 1, end);
    }
  }

  lemma NewLinesFront(n: int)
    requires n > 0
    ensures NewLines(n) == "\n" + NewLines(n - 1)
  {
    if n > 1 {
      NewLinesFront(n - 1);
    }
  }

  lemma BlankLine(b: string, p: int, q: int, end: int)
    requires Ended(b) && 0 <= p < |b| && IsNewLineChar(b[p]) && q == AfterNewLine(b, p) <= end < |b|
    ensures BlockText(b, p, end) == "\n" + BlockText(b, q, end)
  {
    BlockFirst(b, p, end);
    assert b[p..p] == [];
    assert TrimStart(b[p..p]) + "\n" == "\n";
  }

  /** White space before a comment counts for its newlines. */
  lemma {:induction false} BlankBefore(b: string, p: int, k: int, end: int, n: int, curr: int)
    requires Ended(b) && 0 <= p <= end < |b| && k >= 0 && SkipBlank(b, p, k) == (k + n, curr) && curr <= end && n >= 0
    ensures BlockText(b, p, end) == NewLines(n) + BlockText(b, curr, end)
    decreases |b| - p
  {
    if !IsSpace(b[p]) {
      assert NewLines(0) + BlockText(b, p, end) == BlockText(b, p, end);
    } else if IsNewLineChar(b[p]) {
      var q := AfterNewLine(b, p);
      BlankBefore(b, q, k + 1, end, n - 1, curr);
      BlankLine(b, p, q, end);
      NewLinesFront(n);
      assert "\n" + (NewLines(n - 1) + BlockText(b, curr, end)) == "\n" + NewLines(n - 1) + BlockText(b, curr, end);
    } else {
      BlankBefore(b, p + 1, k, end, n, curr);
      BlockSpace(b, p, end);
    }
  }

  lemma CommentStays(b: string, p: int, e: int)
    requires 0 <= p < e <= |b| && IsComment(b[p])
    ensures TrimStart(b[p..e]) == b[p..e]
  {
  }

  lemma LastLine(b: string, p: int, e: int)
    requires Ended(b) && 0 <= p < e < |b| && IsComment(b[p]) && e == Scan(b, p, LineEnd)
    ensures BlockText(b, p, e) == b[p..e]
  {
    CommentStays(b, p, e);
    TrimmedCons(b[p..e], []);
  }

  lemma GapInBlock(b: string, p: int, e: int, q: int, end: int)
    requires Ended(b) && 0 <= p < e < |b| && IsComment(b[p]) && e == Scan(b, p, LineEnd) && b[e] != NUL
    requires q == AfterNewLine(b, e)
    requires q <= SkipBlank(b, q, 0).1 <= end < |b|
    ensures BlockText(b, p, end)
      == b[p..e] + "\n" + NewLines(SkipBlank(b, q, 0).0) + BlockText(b, SkipBlank(b, q, 0).1, end)
  {
    CommentStays(b, p, e);
    BlockFirst(b, p, end);
    BlankBefore(b, q, 0, end, SkipBlank(b, q, 0).0, SkipBlank(b, q, 0).1);
    var n, rest := NewLines(SkipBlank(b, q, 0).0), BlockText(b, SkipBlank(b, q, 0).1, end);
    assert b[p..e] + "\n" + (n + rest) == b[p..e] + "\n" + n + rest;
  }

  /** The text that LoadMultiLineText stores for a comment, and where it leaves off. */
  lemma {:induction false} CommentMeans(b: string, p: int, blank: bool)
    requires Ended(b) && 0 <= p < |b| && IsComment(b[p])
    ensures var end := BlockEnd(b, p, blank);
            Comments(b, p, blank) == (BlockText(b, p, end), if b[end] == NUL then end else AfterNewLine(b, end))
    decreases |b| - p
  {
    var e, end := Scan(b, p, LineEnd), BlockEnd(b, p, blank);
    CommentStays(b, p, e);
    LastLine(b, p, e);
    if b[e] != NUL {
      var q := AfterNewLine(b, e);
      var s := SkipBlank(b, q, 0);
      if IsComment(b[q]) {
        CommentMeans(b, q, blank);
        BlockFirst(b, p, end);
      } else if blank && IsComment(b[s.1]) {
        CommentMeans(b, s.1, blank);
        GapInBlock(b, p, e, q, end);
      }
    }
  }

  /** The block goes as far as it can: what follows its last line is no comment, and if blank lines are allowed no
      comment comes after them. */
  lemma {:induction false} BlockIsMaximal(b: string, p: int, blank: bool)
    requires Ended(b) && 0 <= p < |b| && IsComment(b[p])
    ensures var end := BlockEnd(b, p, blank);
      && (b[end] != NUL ==> !IsComment(b[AfterNewLine(b, end)]))
      && (b[end] != NUL && blank ==> !IsComment(b[SkipBlank(b, AfterNewLine(b, end), 0).1]))
    decreases |b| - p
  {
    var e := Scan(b, p, LineEnd);
    if b[e] != NUL {
      var q := AfterNewLine(b, e);
      var s := SkipBlank(b, q, 0).1;
      if IsComment(b[q]) {
        BlockIsMaximal(b, q, blank);
      } else if blank && IsComment(b[s]) {
        BlockIsMaximal(b, s, blank);
      }
    }
  }

  /** Every line of the block is a comment; between them there are blank lines only if they are allowed. */
  predicate CommentOrBlank(line: string, blank: bool) {
    if line == [] then blank else IsComment(line[0])
  }

  lemma {:induction false} LinesAreComments(b: string, p: int, blank: bool)
    requires Ended(b) && 0 <= p < |b| && IsComment(b[p])
    ensures forall line :: line in Trimmed(LinesOf(b, p, BlockEnd(b, p, blank))) ==> CommentOrBlank(line, blank)
    decreases |b| - p
  {
    var e, end := Scan(b, p, LineEnd), BlockEnd(b, p, blank);
    CommentStays(b, p, e);
    if b[e] == NUL || end == e {
      TrimmedCons(b[p..e], []);
    } else {
      var q := AfterNewLine(b, e);
      var s := SkipBlank(b, q, 0).1;
      TrimmedCons(b[p..e], LinesOf(b, q, end));
      if IsComment(b[q]) {
        LinesAreComments(b, q, blank);
      } else {
        LinesAreComments(b, s, blank);
        BlankLines(b, q, 0, end);
      }
    }
  }

  lemma {:induction false} BlankLines(b: string, p: int, k: int, end: int)
    requires Ended(b) && 0 <= p <= end < |b| && k >= 0 && SkipBlank(b, p, k).1 <= end
    requires forall line :: line in Trimmed(LinesOf(b, SkipBlank(b, p, k).1, end)) ==> CommentOrBlank(line, true)
    ensures forall line :: line in Trimmed(LinesOf(b, p, end)) ==> CommentOrBlank(line, true)
    decreases |b| - p
  {
    if IsSpace(b[p]) {
      if IsNewLineChar(b[p]) {
        var q := AfterNewLine(b, p);
        BlankLines(b, q, k + 1, end);
        TrimmedCons(b[p..p], LinesOf(b, q, end));
      } else {
        BlankLines(b, p + 1, k, end);
        SpaceLines(b, p, end);
      }
    }
  }

  lemma SpaceLines(b: string, p: int, end: int)
    requires Ended(b) && 0 <= p < end < |b| && IsSpace(b[p]) && !IsNewLineChar(b[p])
    ensures Trimmed(LinesOf(b, p, end)) == Trimmed(LinesOf(b, p + 1, end))
  {
    var e := Scan(b, p, LineEnd);
    if e >= end || b[e] == NUL || AfterNewLine(b, e) > end {
      assert b[p..end][1..] == b[p + 1..end];
      TrimmedCons(b[p..end], []);
      TrimmedCons(b[p + 1..end], []);
    } else {
      assert b[p..e][1..] == b[p + 1..e];
      TrimmedCons(b[p..e], LinesOf(b, AfterNewLine(b, e), end));
      TrimmedCons(b[p + 1..e], LinesOf(b, AfterNewLine(b, e), end));
    }
  }
}
