/** LoadMultiLineText and FindEntry of SimpleIni.h in place: they write NULs and newlines into the buffer they read. A
    clause that says `P(..) == true` states P as one fact, which the verifier does not unfold there. */
module IniLoad {
  import opened Options
  import opened IniCompare
  import opened IniText

  ghost predicate SameFrom(b: string, c: string, p: int) {
    |b| == |c| && forall i {:trigger b[i]} {:trigger c[i]} :: 0 <= i < |b| && p <= i ==> b[i] == c[i]
  }

  ghost predicate SameTo(b: string, c: string, p: int) {
    |b| == |c| && forall i {:trigger b[i]} {:trigger c[i]} :: 0 <= i < |b| && i < p ==> b[i] == c[i]
  }

  ghost predicate StringAt(b: string, p: int, v: string) {
    0 <= p && p + |v| < |b| && b[p..p + |v|] == v && b[p + |v|] == NUL
  }

  /** Text written behind what was there. */
  lemma Extended(b: string, c: string, p: int, m: int, n: int, add: string)
    requires SameTo(b, c, m) && 0 <= p <= m <= n <= |c| && c[m..n] == add
    ensures c[p..n] == b[p..m] + add
  {
    assert c[p..m] == b[p..m];
  }

  lemma StringSpan(b: string, p: int, v: string, m: int)
    requires StringAt(b, p, v) && m == p + |v|
    ensures b[p..m] == v && b[m] == NUL
  {
  }

  lemma StringFrom(b: string, p: int, e: int, v: string)
    requires 0 <= p <= e < |b| && b[p..e] == v && b[e] == NUL
    ensures StringAt(b, p, v)
  {
  }

  lemma SliceAgrees(b: string, c: string, p: int, lo: int, hi: int)
    requires SameFrom(b, c, p) && 0 <= p <= lo <= hi <= |b|
    ensures b[lo..hi] == c[lo..hi]
  {
  }

  lemma SameTwice(b: string, c: string, d: string, p: int, q: int, m: int, n: int)
    requires SameTo(b, c, p) && SameFrom(b, c, q) && SameTo(c, d, m) && SameFrom(c, d, n) && p <= m && q <= n
    ensures SameTo(b, d, p) && SameFrom(b, d, n)
  {
  }

  // ------------------------------------------------------------------ only the unread text matters

  lemma {:induction false} ScanAgrees(b: string, c: string, p: int, u: Until)
    requires Ended(b) && SameFrom(b, c, p) && 0 <= p < |b|
    ensures Ended(c) && Scan(c, p, u) == Scan(b, p, u)
    decreases |b| - p
  {
    if !Stops(u, b[p]) {
      ScanAgrees(b, c, p + 1, u);
    }
  }

  lemma {:induction false} SkipBlankAgrees(b: string, c: string, p: int, n: int)
    requires Ended(b) && SameFrom(b, c, p) && 0 <= p < |b| && n >= 0
    ensures Ended(c) && SkipBlank(c, p, n) == SkipBlank(b, p, n)
    decreases |b| - p
  {
    if IsSpace(b[p]) {
      if IsNewLineChar(b[p]) {
        SkipBlankAgrees(b, c, AfterNewLine(b, p), n + 1);
      } else {
        SkipBlankAgrees(b, c, p + 1, n);
      }
    }
  }

  // ------------------------------------------------------------------ reading

  method ScanTo(buf: array<char>, p: int, u: Until) returns (r: int)
    requires Ended(buf[..]) && 0 <= p < buf.Length
    ensures r == Scan(buf[..], p, u)
  {
    r := p;
    while !Stops(u, buf[r])
      invariant p <= r < buf.Length
      invariant Scan(buf[..], r, u) == Scan(buf[..], p, u)
      decreases buf.Length - r
    {
      r := r + 1;
    }
  }

  method TrimTo(buf: array<char>, lo: int, hi: int) returns (r: int)
    requires 0 <= lo <= hi <= buf.Length
    ensures r == TrimEnd(buf[..], lo, hi)
  {
    var trail := hi - 1;
    while trail >= lo && IsSpace(buf[trail])
      invariant lo - 1 <= trail < hi
      invariant TrimEnd(buf[..], lo, trail + 1) == TrimEnd(buf[..], lo, hi)
    {
      trail := trail - 1;
    }
    r := trail + 1;
  }

  method SkipNewLine(buf: array<char>, p: int) returns (r: int)
    requires Ended(buf[..]) && 0 <= p < buf.Length && IsNewLineChar(buf[p])
    ensures r == AfterNewLine(buf[..], p)
  {
    r := if buf[p] == '\r' && buf[p + 1] == '\n' then p + 2 else p + 1;
  }

  method LookAhead(buf: array<char>, p: int) returns (newLines: int, curr: int)
    requires Ended(buf[..]) && 0 <= p < buf.Length
    ensures (newLines, curr) == SkipBlank(buf[..], p, 0)
  {
    newLines, curr := 0, p;
    while IsSpace(buf[curr])
      invariant p <= curr < buf.Length && newLines >= 0
      invariant SkipBlank(buf[..], curr, newLines) == SkipBlank(buf[..], p, 0)
      decreases buf.Length - curr
    {
      if IsNewLineChar(buf[curr]) {
        newLines := newLines + 1;
        curr := SkipNewLine(buf, curr);
      } else {
        curr := curr + 1;
      }
    }
  }

  method ReadString(buf: array<char>, p: int) returns (s: string)
    requires Ended(buf[..]) && 0 <= p < buf.Length
    ensures s == CString(buf[..], p)
  {
    s := [];
    var i := p;
    while buf[i] != NUL
      invariant p <= i < buf.Length
      invariant s + CString(buf[..], i) == CString(buf[..], p)
      decreases buf.Length - i
    {
      s := s + [buf[i]];
      i := i + 1;
    }
  }

  // ------------------------------------------------------------------ one line

  /** memmove down, and a NUL behind the moved line. Nothing happens if the line is where it should be. */
  method MoveLine(buf: array<char>, dataLine: int, line: int, e: int)
    requires 0 <= dataLine <= line <= e < buf.Length
    modifies buf
    ensures buf[dataLine..dataLine + (e - line)] == old(buf[line..e])
    ensures dataLine < line ==> buf[dataLine + (e - line)] == NUL
    ensures SameTo(old(buf[..]), buf[..], dataLine) && SameFrom(old(buf[..]), buf[..], e)
    ensures dataLine == line ==> buf[..] == old(buf[..])
  {
    if dataLine < line {
      forall i | 0 <= i < e - line {
        buf[dataLine + i] := buf[line + i];
      }
      buf[dataLine + (e - line)] := NUL;
    }
  }

  lemma SameJoined(b: string, c: string, m: int, text: string)
    requires 0 <= m && m + |text| < |b| == |c|
    requires b[m..m + |text|] == text && c == b[m + |text| := '\n']
    ensures c[m..m + |text| + 1] == text + "\n"
  {
    assert c[m..m + |text|] == text;
  }

  /** The newline of a line that has been moved: one character, however many it was. */
  method EndLine(buf: array<char>, dataLine: int, line: int, e: int) returns (m: int, data: int)
    requires Ended(buf[..]) && 0 <= dataLine <= line <= e < buf.Length && IsNewLineChar(buf[e])
    modifies buf
    ensures data == AfterNewLine(old(buf[..]), e) && m == dataLine + (e - line) + 1 <= data < buf.Length
    ensures buf[dataLine..m] == old(buf[dataLine..dataLine + (e - line)]) + "\n"
    ensures SameTo(old(buf[..]), buf[..], dataLine) && SameFrom(old(buf[..]), buf[..], data)
    ensures Ended(buf[..])
  {
    data := SkipNewLine(buf, e);
    m := dataLine + (e - line);
    buf[m] := '\n';
    SameJoined(old(buf[..]), buf[..], dataLine, old(buf[dataLine..m]));
    m := m + 1;
  }

  /** A comment line: moved down, and its newline with it unless the text ends. */
  method CommentLine(buf: array<char>, dataLine: int, line: int) returns (ended: bool, m: int, data: int)
    requires Ended(buf[..]) && 0 <= dataLine <= line < buf.Length
    modifies buf
    ensures var b := old(buf[..]); var e := Scan(b, line, LineEnd);
      && (ended <==> b[e] == NUL)
      && (ended ==> data == e && StringAt(buf[..], dataLine, b[line..e]))
      && (!ended ==> data == AfterNewLine(b, e) && m == dataLine + (e - line) + 1 <= data < buf.Length)
      && (!ended ==> buf[dataLine..m] == b[line..e] + "\n")
    ensures SameTo(old(buf[..]), buf[..], dataLine) && SameFrom(old(buf[..]), buf[..], data)
    ensures Ended(buf[..])
  {
    var e := ScanTo(buf, line, LineEnd);
    MoveLine(buf, dataLine, line, e);
    if buf[e] == NUL {
      return true, dataLine, e;
    }
    ended := false;
    m, data := EndLine(buf, dataLine, line, e);
  }

  // ------------------------------------------------------------------ comment blocks

  lemma {:induction false} CommentsAgree(b: string, c: string, p: int, blank: bool)
    requires Ended(b) && SameFrom(b, c, p) && 0 <= p < |b| && IsComment(b[p])
    ensures Ended(c) && Comments(c, p, blank) == Comments(b, p, blank)
    decreases |b| - p
  {
    ScanAgrees(b, c, p, LineEnd);
    var e := Scan(b, p, LineEnd);
    assert b[p..e] == c[p..e];
    if b[e] != NUL {
      var q := AfterNewLine(b, e);
      SkipBlankAgrees(b, c, q, 0);
      if IsComment(b[q]) {
        CommentsAgree(b, c, q, blank);
      } else if IsComment(b[SkipBlank(b, q, 0).1]) {
        CommentsAgree(b, c, SkipBlank(b, q, 0).1, blank);
      }
    }
  }

  /** What follows a comment line: the rest of the block with the newlines before it, or nothing. */
  function MoreComments(b: string, q: int, blank: bool): (r: (string, int))
    requires Ended(b) && 0 <= q < |b|
    ensures q <= r.1 < |b|
  {
    var s := SkipBlank(b, q, 0);
    if IsComment(b[q]) then ("\n" + Comments(b, q, blank).0, Comments(b, q, blank).1)
    else if blank && IsComment(b[s.1])
      then ("\n" + NewLines(s.0) + Comments(b, s.1, blank).0, Comments(b, s.1, blank).1)
    else ([], q)
  }

  lemma CommentThenMore(b: string, p: int, blank: bool)
    requires Ended(b) && 0 <= p < |b| && IsComment(b[p])
    ensures var e := Scan(b, p, LineEnd);
            Comments(b, p, blank) == if b[e] == NUL then (b[p..e], e)
            else (b[p..e] + MoreComments(b, AfterNewLine(b, e), blank).0, MoreComments(b, AfterNewLine(b, e), blank).1)
  {
    var e := Scan(b, p, LineEnd);
    if b[e] != NUL {
      var q := AfterNewLine(b, e);
      var s := SkipBlank(b, q, 0);
      if IsComment(b[q]) {
        assert b[p..e] + "\n" + Comments(b, q, blank).0 == b[p..e] + ("\n" + Comments(b, q, blank).0);
      } else if blank && IsComment(b[s.1]) {
        assert b[p..e] + "\n" + NewLines(s.0) + Comments(b, s.1, blank).0
          == b[p..e] + ("\n" + NewLines(s.0) + Comments(b, s.1, blank).0);
      } else {
        assert b[p..e] + [] == b[p..e];
      }
    }
  }

  /** The text written so far and what is still to be read make up the block at p. */
  ghost predicate CommentsSoFar(b: string, p: int, blank: bool, out: string, data: int)
    requires Ended(b) && 0 <= p < |b| && IsComment(b[p])
  {
    && p <= data < |b|
    && var block := Comments(b, p, blank);
       if IsComment(b[data])
       then block == (out + Comments(b, data, blank).0, Comments(b, data, blank).1)
       else (out != [] && out[|out| - 1] == '\n'
             && block == (out[..|out| - 1] + MoreComments(b, data, blank).0, MoreComments(b, data, blank).1))
  }

  lemma Appended(out: string, line: string, rest: string)
    ensures var more := out + (line + "\n");
      && more[..|more| - 1] == out + line && more[|more| - 1] == '\n'
      && out + (line + rest) == out + line + rest
      && out + (line + ("\n" + rest)) == more + rest
  {
  }

  lemma Unbroken(out: string, more: string, rest: string)
    requires out != [] && out[|out| - 1] == '\n'
    ensures out[..|out| - 1] + ("\n" + more + rest) == (out + more) + rest
    ensures out[..|out| - 1] + [] == out[..|out| - 1]
  {
  }

  lemma CommentLineRead(b: string, p: int, blank: bool, out: string, line: int)
    requires Ended(b) && 0 <= p < |b| && IsComment(b[p]) && CommentsSoFar(b, p, blank, out, line) && IsComment(b[line])
    ensures var e := Scan(b, line, LineEnd);
            if b[e] == NUL then Comments(b, p, blank) == (out + b[line..e], e)
            else CommentsSoFar(b, p, blank, out + (b[line..e] + "\n"), AfterNewLine(b, e))
  {
    var e := Scan(b, line, LineEnd);
    CommentThenMore(b, line, blank);
    if b[e] != NUL {
      var q := AfterNewLine(b, e);
      if IsComment(b[q]) {
        Appended(out, b[line..e], Comments(b, q, blank).0);
      } else {
        Appended(out, b[line..e], MoreComments(b, q, blank).0);
      }
    }
  }

  lemma CommentsStart(b: string, p: int, blank: bool)
    requires Ended(b) && 0 <= p < |b| && IsComment(b[p])
    ensures CommentsSoFar(b, p, blank, [], p)
  {
    assert [] + Comments(b, p, blank).0 == Comments(b, p, blank).0;
  }

  lemma BlankLinesRead(b: string, p: int, blank: bool, out: string, data: int, n: int, curr: int)
    requires Ended(b) && 0 <= p < |b| && IsComment(b[p]) && CommentsSoFar(b, p, blank, out, data) && !IsComment(b[data])
    requires (n, curr) == SkipBlank(b, data, 0) && blank && IsComment(b[curr])
    ensures CommentsSoFar(b, p, blank, out + NewLines(n), curr)
  {
    Unbroken(out, NewLines(n), Comments(b, curr, blank).0);
  }

  lemma BlockOver(b: string, p: int, blank: bool, out: string, data: int)
    requires Ended(b) && 0 <= p < |b| && IsComment(b[p]) && CommentsSoFar(b, p, blank, out, data) && !IsComment(b[data])
    requires !blank || !IsComment(b[SkipBlank(b, data, 0).1])
    ensures Comments(b, p, blank) == (out[..|out| - 1], data)
  {
    Unbroken(out, [], []);
  }

  /** The newlines of the blank lines between two comments. */
  method WriteNewLines(buf: array<char>, dataLine: int, count: int, ghost m: int)
    requires Ended(buf[..]) && 0 <= dataLine <= m < buf.Length && m == dataLine + count
    modifies buf
    ensures buf[dataLine..m] == NewLines(count)
    ensures SameTo(old(buf[..]), buf[..], dataLine) && SameFrom(old(buf[..]), buf[..], m)
  {
    var written := 0;
    while written < count
      invariant 0 <= written <= count
      invariant buf[dataLine..dataLine + written] == NewLines(written)
      invariant SameTo(old(buf[..]), buf[..], dataLine) && SameFrom(old(buf[..]), buf[..], dataLine + written)
    {
      ghost var was := buf[dataLine..dataLine + written];
      buf[dataLine + written] := '\n';
      written := written + 1;
      assert buf[dataLine..dataLine + written] == was + "\n";
    }
  }

  /** The state of the loop, and that what has been written has not passed what is being read. */
  ghost predicate Loading(b: string, now: string, p: int, blank: bool, dataLine: int, data: int) {
    && Ended(b) && Ended(now) && 0 <= p <= dataLine <= data < |b| && IsComment(b[p])
    && SameTo(b, now, p) && SameFrom(b, now, data)
    && CommentsSoFar(b, p, blank, now[p..dataLine], data)
  }

  ghost predicate Loaded(b: string, now: string, p: int, blank: bool, data: int) {
    && Ended(b) && Ended(now) && 0 <= p < |b| && IsComment(b[p])
    && data == Comments(b, p, blank).1 && StringAt(now, p, Comments(b, p, blank).0)
    && SameTo(b, now, p) && SameFrom(b, now, data)
  }

  lemma BlankText(b: string, was: string, p: int, blank: bool, dataLine: int, data: int, n: int, curr: int)
    requires Loading(b, was, p, blank, dataLine, data) && !IsComment(was[data])
    requires (n, curr) == SkipBlank(was, data, 0) && blank && IsComment(was[curr])
    ensures CommentsSoFar(b, p, blank, was[p..dataLine] + NewLines(n), curr) == true
  {
    SkipBlankAgrees(b, was, data, 0);
    BlankLinesRead(b, p, blank, was[p..dataLine], data, n, curr);
  }

  lemma BlankRead(b: string, was: string, now: string, p: int, blank: bool, dataLine: int, data: int, n: int, m: int,
                  curr: int)
    requires Loading(b, was, p, blank, dataLine, data) && !IsComment(was[data]) && Ended(now) && |now| == |was|
    requires (n, curr) == SkipBlank(was, data, 0) && blank && IsComment(was[curr])
    requires m == dataLine + n && now[dataLine..m] == NewLines(n) && SameTo(was, now, dataLine)
    requires SameFrom(was, now, curr)
    ensures Loading(b, now, p, blank, m, curr) == true
  {
    BlankText(b, was, p, blank, dataLine, data, n, curr);
    Extended(was, now, p, dataLine, m, NewLines(n));
    SameTwice(b, was, now, p, data, dataLine, curr);
  }

  /** The block ends with the newline before dataLine, which becomes a NUL. */
  lemma NothingMore(b: string, was: string, now: string, p: int, blank: bool, dataLine: int, data: int)
    requires Loading(b, was, p, blank, dataLine, data) && !IsComment(was[data])
    requires !blank || !IsComment(was[SkipBlank(was, data, 0).1])
    requires p < dataLine && now == was[dataLine - 1 := NUL]
    ensures Loaded(b, now, p, blank, data) == true
  {
    SkipBlankAgrees(b, was, data, 0);
    BlockOver(b, p, blank, was[p..dataLine], data);
    assert now[p..dataLine - 1] == was[p..dataLine][..dataLine - p - 1];
    StringFrom(now, p, dataLine - 1, Comments(b, p, blank).0);
  }

  lemma SomethingWritten(b: string, was: string, p: int, blank: bool, dataLine: int, data: int)
    requires Loading(b, was, p, blank, dataLine, data) && !IsComment(was[data])
    ensures p < dataLine
  {
    assert |was[p..dataLine]| == dataLine - p;
  }

  method EndBlock(ghost b: string, buf: array<char>, p: int, blank: bool, dataLine: int, data: int)
    requires Loading(b, buf[..], p, blank, dataLine, data) && !IsComment(buf[data])
    requires !blank || !IsComment(buf[SkipBlank(buf[..], data, 0).1])
    modifies buf
    ensures Loaded(b, buf[..], p, blank, data) == true
  {
    ghost var was := buf[..];
    SomethingWritten(b, was, p, blank, dataLine, data);
    buf[dataLine - 1] := NUL;
    NothingMore(b, was, buf[..], p, blank, dataLine, data);
  }

  method BlankStep(ghost b: string, buf: array<char>, p: int, blank: bool, dataLine: int, data: int, newLines: int,
                   m: int, curr: int)
    requires Loading(b, buf[..], p, blank, dataLine, data) == true && Ended(buf[..])
    requires 0 <= dataLine <= data < buf.Length
    requires !IsComment(buf[data]) && (newLines, curr) == SkipBlank(buf[..], data, 0) && blank && IsComment(buf[curr])
    requires m == dataLine + newLines
    modifies buf
    ensures Loading(b, buf[..], p, blank, m, curr) == true
  {
    ghost var was := buf[..];
    WriteNewLines(buf, dataLine, newLines, m);
    BlankRead(b, was, buf[..], p, blank, dataLine, data, newLines, m, curr);
  }

  lemma LastLineText(b: string, was: string, p: int, blank: bool, dataLine: int, line: int, e: int)
    requires Loading(b, was, p, blank, dataLine, line) && IsComment(was[line]) && e == Scan(was, line, LineEnd)
    requires was[e] == NUL
    ensures Comments(b, p, blank) == (was[p..dataLine] + was[line..e], e)
  {
    ScanAgrees(b, was, line, LineEnd);
    CommentLineRead(b, p, blank, was[p..dataLine], line);
    SliceAgrees(b, was, line, line, e);
  }

  lemma LastLineRead(b: string, was: string, now: string, p: int, blank: bool, dataLine: int, line: int, e: int, m: int)
    requires Loading(b, was, p, blank, dataLine, line) && IsComment(was[line]) && Ended(now) && |now| == |was|
    requires e == Scan(was, line, LineEnd) && was[e] == NUL && m == dataLine + (e - line) < |now|
    requires now[dataLine..m] == was[line..e] && now[m] == NUL && SameTo(was, now, dataLine) && SameFrom(was, now, e)
    ensures Loaded(b, now, p, blank, e) == true
  {
    var text := was[p..dataLine] + was[line..e];
    LastLineText(b, was, p, blank, dataLine, line, e);
    Extended(was, now, p, dataLine, m, was[line..e]);
    StringFrom(now, p, m, text);
    SameTwice(b, was, now, p, line, dataLine, e);
  }

  lemma LineText(b: string, was: string, p: int, blank: bool, dataLine: int, line: int, e: int)
    requires Loading(b, was, p, blank, dataLine, line) && IsComment(was[line]) && e == Scan(was, line, LineEnd)
    requires was[e] != NUL
    ensures CommentsSoFar(b, p, blank, was[p..dataLine] + (was[line..e] + "\n"), AfterNewLine(was, e)) == true
  {
    ScanAgrees(b, was, line, LineEnd);
    CommentLineRead(b, p, blank, was[p..dataLine], line);
    SliceAgrees(b, was, line, line, e);
  }

  lemma LineRead(b: string, was: string, now: string, p: int, blank: bool, dataLine: int, line: int, e: int, m: int,
                 next: int)
    requires Loading(b, was, p, blank, dataLine, line) && IsComment(was[line]) && Ended(now) && |now| == |was|
    requires e == Scan(was, line, LineEnd) && was[e] != NUL && next == AfterNewLine(was, e)
    requires m == dataLine + (e - line) + 1 <= next
    requires now[dataLine..m] == was[line..e] + "\n" && SameTo(was, now, dataLine) && SameFrom(was, now, next)
    ensures Loading(b, now, p, blank, m, next) == true
  {
    LineText(b, was, p, blank, dataLine, line, e);
    Extended(was, now, p, dataLine, m, was[line..e] + "\n");
    SameTwice(b, was, now, p, line, dataLine, next);
  }

  method LineStep(ghost b: string, buf: array<char>, p: int, blank: bool, dataLine: int, data: int)
    returns (ended: bool, m: int, next: int)
    requires Loading(b, buf[..], p, blank, dataLine, data) && IsComment(buf[data])
    modifies buf
    ensures ended ==> Loaded(b, buf[..], p, blank, next) == true
    ensures !ended ==> Loading(b, buf[..], p, blank, m, next) == true
    ensures !ended ==> next > data && m > p
  {
    ghost var was := buf[..];
    ended, m, next := CommentLine(buf, dataLine, data);
    if ended {
      ghost var e := Scan(was, data, LineEnd);
      StringSpan(buf[..], dataLine, was[data..e], dataLine + (e - data));
      LastLineRead(b, was, buf[..], p, blank, dataLine, data, e, dataLine + (e - data));
    } else {
      LineRead(b, was, buf[..], p, blank, dataLine, data, Scan(was, data, LineEnd), m, next);
    }
  }

  /** LoadMultiLineText for a comment. */
  method LoadComment(buf: array<char>, p: int, blank: bool) returns (found: bool, data: int)
    requires Ended(buf[..]) && 0 <= p < buf.Length
    modifies buf
    ensures found <==> IsComment(old(buf[p]))
    ensures !found ==> data == p && buf[..] == old(buf[..])
    ensures found ==> Loaded(old(buf[..]), buf[..], p, blank, data) == true
  {
    if !IsComment(buf[p]) {
      return false, p;
    }
    ghost var b := buf[..];
    var dataLine := p;
    data := p;
    CommentsStart(b, p, blank);
    assert buf[p..p] == [];
    while true
      invariant Loading(b, buf[..], p, blank, dataLine, data) == true
      decreases buf.Length - data
    {
      if !IsComment(buf[data]) {
        if !blank {
          EndBlock(b, buf, p, blank, dataLine, data);
          return true, data;
        }
        var newLines, curr := LookAhead(buf, data);
        if !IsComment(buf[curr]) {
          EndBlock(b, buf, p, blank, dataLine, data);
          return true, data;
        }
        var m := dataLine + newLines;
        BlankStep(b, buf, p, blank, dataLine, data, newLines, m, curr);
        dataLine, data := m, curr;
      } else {
        var ended, m, next := LineStep(b, buf, p, blank, dataLine, data);
        if ended {
          return true, next;
        }
        dataLine, data := m, next;
      }
    }
  }

  // ------------------------------------------------------------------ multi-line values

  lemma {:induction false} TrimAgrees(b: string, c: string, lo: int, hi: int)
    requires 0 <= lo <= hi <= |b| == |c| && b[lo..hi] == c[lo..hi]
    ensures TrimEnd(b, lo, hi) == TrimEnd(c, lo, hi)
    decreases hi - lo
  {
    if lo < hi {
      assert b[hi - 1] == b[lo..hi][hi - 1 - lo] && c[hi - 1] == c[lo..hi][hi - 1 - lo];
      assert b[lo..hi - 1] == b[lo..hi][..hi - 1 - lo] && c[lo..hi - 1] == c[lo..hi][..hi - 1 - lo];
      TrimAgrees(b, c, lo, hi - 1);
    }
  }

  lemma {:induction false} CStringIs(b: string, p: int, v: string)
    requires Ended(b) && StringAt(b, p, v) && NUL !in v
    ensures CString(b, p) == v
    decreases |v|
  {
    if v != [] {
      assert b[p] == v[0] && b[p + 1..p + 1 + |v[1..]|] == v[1..];
      CStringIs(b, p + 1, v[1..]);
      assert v == [v[0]] + v[1..];
    } else {
      assert b[p] == NUL;
    }
  }

  lemma {:induction false} LineHasNoNul(b: string, p: int, u: Until, i: int)
    requires Ended(b) && 0 <= p < |b| && p <= i < Scan(b, p, u)
    ensures !Stops(u, b[i])
    decreases |b| - p
  {
    if p < i {
      LineHasNoNul(b, p + 1, u, i);
    }
  }

  /** A NUL stops the search for the end of the tag. */
  lemma {:induction false} TrimStopsAt(b: string, lo: int, hi: int, k: int)
    requires 0 <= lo <= k < hi <= |b| && !IsSpace(b[k])
    ensures TrimEnd(b, lo, hi) > k
    decreases hi - lo
  {
    if IsSpace(b[hi - 1]) {
      TrimStopsAt(b, lo, hi - 1, k);
    }
  }

  /** What the comparison with the tag sees: b is the text, now the buffer with the line moved to dataLine and a NUL
      at e. */
  lemma TagSeen(b: string, now: string, dataLine: int, line: int, e: int, cut: string)
    requires Ended(b) && 0 <= dataLine <= line < |b| == |now| && e == Scan(b, line, LineEnd) && Ended(now)
    requires now[dataLine..dataLine + (e - line)] == b[line..e] && now[e] == NUL
    requires dataLine < line ==> now[dataLine + (e - line)] == NUL
    requires cut == now[TagEnd(now, dataLine, e) := NUL]
    ensures CString(cut, dataLine) == if dataLine < line then b[line..e] else b[line..TagEnd(b, line, e)]
  {
    var t := TagEnd(now, dataLine, e);
    var text := b[line..e];
    forall i | 0 <= i < |text| ensures text[i] != NUL {
      LineHasNoNul(b, line, LineEnd, line + i);
    }
    if dataLine < line {
      if dataLine + |text| < e {
        if dataLine + |text| > dataLine {
          TrimStopsAt(now, dataLine + 1, e, dataLine + |text|);
        } 
      }
      assert cut[dataLine..dataLine + |text|] == text;
      CStringIs(cut, dataLine, text);
    } else {
      assert now[line..e] == b[line..e];
      if line < e {
        assert now[line + 1..e] == b[line + 1..e]
          by { assert now[line + 1..e] == now[line..e][1..]; assert b[line + 1..e] == b[line..e][1..]; }
        TrimAgrees(now, b, line + 1, e);
      }
      assert cut[line..t] == now[line..e][..t - line] == b[line..t];
      CStringIs(cut, line, b[line..t]);
    }
  }

  /** What the comparison with the tag is about: once lines have moved, the white space at the end of the line counts.
      */
  function Seen(b: string, line: int, moved: bool): string
    requires Ended(b) && 0 <= line < |b|
  {
    var e := Scan(b, line, LineEnd);
    if moved then b[line..e] else b[line..TagEnd(b, line, e)]
  }

  method TagEndTo(buf: array<char>, dataLine: int, e: int) returns (t: int)
    requires 0 <= dataLine <= e <= buf.Length
    ensures t == TagEnd(buf[..], dataLine, e)
  {
    if dataLine < e {
      t := TrimTo(buf, dataLine + 1, e);
    } else {
      t := e;
    }
  }

  /** Moves a line and compares it with the tag. After a match the NULs at the end of the tag and of the line are
      still there; otherwise the line is as it was. */
  method MatchTag(buf: array<char>, dataLine: int, line: int, e: int, tag: string, noCase: bool) returns (matched: bool)
    requires Ended(buf[..]) && 0 <= dataLine <= line < buf.Length && e == Scan(buf[..], line, LineEnd)
    modifies buf
    ensures matched == Same(noCase, Seen(old(buf[..]), line, dataLine < line), tag)
    ensures !matched ==> buf[dataLine..dataLine + (e - line)] == old(buf[line..e])
    ensures !matched && old(buf[e]) == NUL ==> StringAt(buf[..], dataLine, old(buf[line..e]))
    ensures !matched ==> SameFrom(old(buf[..]), buf[..], e) && Ended(buf[..])
    ensures matched ==> SameFrom(old(buf[..]), buf[..], e + 1) && buf[e] == NUL
    ensures matched && dataLine == line ==> buf[..] == old(buf[..])[TagEnd(old(buf[..]), line, e) := NUL][e := NUL]
    ensures SameTo(old(buf[..]), buf[..], dataLine)
  {
    ghost var b := buf[..];
    MoveLine(buf, dataLine, line, e);
    var endOfLineChar := buf[e];
    buf[e] := NUL;
    ghost var now := buf[..];
    var t := TagEndTo(buf, dataLine, e);
    var ch := buf[t];
    buf[t] := NUL;
    TagSeen(b, now, dataLine, line, e, buf[..]);
    var text := ReadString(buf, dataLine);
    var less := IsLess(noCase, text, tag);
    var greater := IsLess(noCase, tag, text);
    if !less && !greater {
      if dataLine == line {
        UnmovedTag(b, now, line, e);
      }
      return true;
    }
    buf[t] := ch;
    assert buf[..] == now;
    buf[e] := endOfLineChar;
    assert dataLine < line || endOfLineChar == NUL ==> buf[dataLine + (e - line)] == NUL;
    return false;
  }

  lemma UnmovedTag(b: string, now: string, line: int, e: int)
    requires 0 <= line <= e < |b| && now == b[e := NUL]
    ensures TagEnd(now, line, e) == TagEnd(b, line, e)
    ensures var t := TagEnd(b, line, e); now[t := NUL] == b[t := NUL][e := NUL]
  {
    if line < e {
      assert now[line + 1..e] == b[line + 1..e];
      TrimAgrees(now, b, line + 1, e);
    }
  }

  ghost predicate NoNul(s: string) {
    forall i :: 0 <= i < |s| ==> s[i] != NUL
  }

  lemma LineNoNul(b: string, p: int)
    requires Ended(b) && 0 <= p < |b|
    ensures NoNul(b[p..Scan(b, p, LineEnd)])
  {
    var text := b[p..Scan(b, p, LineEnd)];
    forall i | 0 <= i < |text| ensures text[i] != NUL {
      LineHasNoNul(b, p, LineEnd, p + i);
    }
  }

  /** The lines written so far and those still to be read are the lines from p on. */
  ghost predicate LinesSoFar(b: string, p: int, tag: string, noCase: bool, out: string, data: int, moved: bool)
    requires Ended(b) && 0 <= p < |b|
  {
    && p <= data < |b| && NoNul(out)
    && var rest := Lines(b, data, tag, noCase, moved);
       Lines(b, p, tag, noCase, false) == rest.(text := out + rest.text)
  }

  lemma LinesStart(b: string, p: int, tag: string, noCase: bool)
    requires Ended(b) && 0 <= p < |b|
    ensures LinesSoFar(b, p, tag, noCase, [], p, false)
  {
    var all := Lines(b, p, tag, noCase, false);
    assert [] + all.text == all.text;
  }

  lemma AppendedLine(out: string, line: string, rest: string)
    ensures out + (line + "\n" + rest) == out + (line + "\n") + rest
    ensures NoNul(out) && NoNul(line) ==> NoNul(out + (line + "\n"))
  {
  }

  lemma LinesStep(b: string, p: int, tag: string, noCase: bool, out: string, line: int, moved: bool)
    requires Ended(b) && 0 <= p < |b| && LinesSoFar(b, p, tag, noCase, out, line, moved)
    requires !Same(noCase, Seen(b, line, moved), tag)
    ensures var e := Scan(b, line, LineEnd);
            if b[e] == NUL then Lines(b, p, tag, noCase, false) == Open(out + b[line..e], e)
            else LinesSoFar(b, p, tag, noCase, out + (b[line..e] + "\n"), AfterNewLine(b, e), moved
                            || AfterNewLine(b, e) == e + 2)
  {
    var e := Scan(b, line, LineEnd);
    LineNoNul(b, line);
    if b[e] != NUL {
      var q := AfterNewLine(b, e);
      AppendedLine(out, b[line..e], Lines(b, q, tag, noCase, moved || q == e + 2).text);
    }
  }

  lemma LinesTagged(b: string, p: int, tag: string, noCase: bool, out: string, line: int, moved: bool)
    requires Ended(b) && 0 <= p < |b| && LinesSoFar(b, p, tag, noCase, out, line, moved)
    requires Same(noCase, Seen(b, line, moved), tag)
    ensures var e := Scan(b, line, LineEnd);
            Lines(b, p, tag, noCase, false) == Tagged(out, line, if b[e] == NUL then e else AfterNewLine(b, e))
  {
    assert out + [] == out;
  }

  /** The state of the loop. */
  ghost predicate Reading(b: string, now: string, p: int, tag: string, noCase: bool, dataLine: int, data: int) {
    && Ended(b) && Ended(now) && 0 <= p <= dataLine <= data < |b|
    && SameTo(b, now, p) && SameFrom(b, now, data)
    && LinesSoFar(b, p, tag, noCase, now[p..dataLine], data, dataLine < data)
    && (dataLine == p ==> data == p)
  }

  /** The outcome: reading goes on at data, and a string is at p. */
  ghost predicate Read(b: string, now: string, p: int, tag: string, noCase: bool, data: int) {
    && Ended(b) && Ended(now) && 0 < p < |b| && SameTo(b, now, p - 1) && SameFrom(b, now, data)
    && p <= data < |b|
    && MultiLine(b, p, tag, noCase) == Some((CString(now, p), data))
  }

  /** A line that is still to be read is what it was. */
  lemma LineAgrees(b: string, was: string, line: int, moved: bool)
    requires Ended(b) && SameFrom(b, was, line) && 0 <= line < |b|
    ensures Ended(was) && Scan(was, line, LineEnd) == Scan(b, line, LineEnd)
    ensures b[line..Scan(b, line, LineEnd)] == was[line..Scan(b, line, LineEnd)]
    ensures Seen(was, line, moved) == Seen(b, line, moved)
  {
    ScanAgrees(b, was, line, LineEnd);
    var e := Scan(b, line, LineEnd);
    SliceAgrees(b, was, line, line, e);
    if line < e {
      SliceAgrees(b, was, line, line + 1, e);
      TrimAgrees(b, was, line + 1, e);
    }
    SliceAgrees(b, was, line, line, TagEnd(b, line, e));
  }

  lemma BothNoNul(s: string, t: string)
    requires NoNul(s) && NoNul(t)
    ensures NUL !in s + t
  {
  }

  lemma TagLineSoFar(b: string, was: string, p: int, tag: string, noCase: bool, dataLine: int, line: int, e: int,
                     m: int, next: int)
    requires Reading(b, was, p, tag, noCase, dataLine, line)
    requires !Same(noCase, Seen(was, line, dataLine < line), tag)
    requires e == Scan(was, line, LineEnd) && was[e] != NUL && next == AfterNewLine(was, e)
    requires m == dataLine + (e - line) + 1 <= next
    ensures LinesSoFar(b, p, tag, noCase, was[p..dataLine] + (was[line..e] + "\n"), next, m < next) == true
  {
    LineAgrees(b, was, line, dataLine < line);
    LinesStep(b, p, tag, noCase, was[p..dataLine], line, dataLine < line);
  }

  lemma TagLineRead(b: string, was: string, now: string, p: int, tag: string, noCase: bool, dataLine: int, line: int,
                    e: int, m: int, next: int)
    requires Reading(b, was, p, tag, noCase, dataLine, line) && Ended(now) && |now| == |was|
    requires !Same(noCase, Seen(was, line, dataLine < line), tag)
    requires e == Scan(was, line, LineEnd) && was[e] != NUL && next == AfterNewLine(was, e)
    requires m == dataLine + (e - line) + 1 <= next
    requires now[dataLine..m] == was[line..e] + "\n" && SameTo(was, now, dataLine) && SameFrom(was, now, next)
    ensures Reading(b, now, p, tag, noCase, m, next) == true
  {
    TagLineSoFar(b, was, p, tag, noCase, dataLine, line, e, m, next);
    Extended(was, now, p, dataLine, m, was[line..e] + "\n");
    SameTwice(b, was, now, p, line, dataLine, next);
  }

  lemma LastLineSoFar(b: string, was: string, p: int, tag: string, noCase: bool, dataLine: int, line: int, e: int)
    requires Reading(b, was, p, tag, noCase, dataLine, line)
    requires !Same(noCase, Seen(was, line, dataLine < line), tag)
    requires e == Scan(was, line, LineEnd) && was[e] == NUL
    ensures Lines(b, p, tag, noCase, false) == Open(was[p..dataLine] + was[line..e], e)
    ensures NUL !in was[p..dataLine] + was[line..e]
  {
    LineAgrees(b, was, line, dataLine < line);
    LinesStep(b, p, tag, noCase, was[p..dataLine], line, dataLine < line);
    LineNoNul(was, line);
    BothNoNul(was[p..dataLine], was[line..e]);
  }

  lemma StringRead(was: string, now: string, p: int, dataLine: int, text: string)
    requires Ended(now) && SameTo(was, now, dataLine) && StringAt(now, dataLine, text) && 0 <= p <= dataLine < |was|
    requires NUL !in was[p..dataLine] + text
    ensures CString(now, p) == was[p..dataLine] + text
  {
    Extended(was, now, p, dataLine, dataLine + |text|, text);
    StringFrom(now, p, dataLine + |text|, was[p..dataLine] + text);
    CStringIs(now, p, was[p..dataLine] + text);
  }

  /** The text ended before the tag. */
  lemma LastReadLine(b: string, was: string, now: string, p: int, tag: string, noCase: bool, dataLine: int, line: int,
                     e: int)
    requires Reading(b, was, p, tag, noCase, dataLine, line) && Ended(now) && |now| == |was| && 0 < p
    requires !Same(noCase, Seen(was, line, dataLine < line), tag)
    requires e == Scan(was, line, LineEnd) && was[e] == NUL
    requires StringAt(now, dataLine, was[line..e]) && SameTo(was, now, dataLine) && SameFrom(was, now, e)
    ensures Read(b, now, p, tag, noCase, e) == true
  {
    LastLineSoFar(b, was, p, tag, noCase, dataLine, line, e);
    StringRead(was, now, p, dataLine, was[line..e]);
    SameTwice(b, was, now, p, line, dataLine, e);
    SameToLess(b, now, p);
  }

  lemma SameToLess(b: string, now: string, p: int)
    requires SameTo(b, now, p)
    ensures SameTo(b, now, p - 1)
  {
  }

  lemma {:induction false} CStringAgrees(b: string, c: string, p: int)
    requires Ended(b) && SameFrom(b, c, p) && 0 <= p < |b|
    ensures Ended(c) && CString(c, p) == CString(b, p)
    decreases |b| - p
  {
    if b[p] != NUL {
      CStringAgrees(b, c, p + 1);
    }
  }

  lemma TaggedSoFar(b: string, was: string, p: int, tag: string, noCase: bool, dataLine: int, line: int, e: int,
                    next: int)
    requires Reading(b, was, p, tag, noCase, dataLine, line)
    requires Same(noCase, Seen(was, line, dataLine < line), tag) && e == Scan(was, line, LineEnd)
    requires next == if was[e] == NUL then e else AfterNewLine(was, e)
    ensures NoNul(was[p..dataLine])
    ensures Lines(b, p, tag, noCase, false) == Tagged(was[p..dataLine], line, next)
  {
    LineAgrees(b, was, line, dataLine < line);
    LinesTagged(b, p, tag, noCase, was[p..dataLine], line, dataLine < line);
  }

  lemma CutOff(was: string, now: string, p: int, dataLine: int)
    requires Ended(now) && 0 <= p < dataLine < |was| && SameTo(was, now, dataLine - 1) && now[dataLine - 1] == NUL
    requires NoNul(was[p..dataLine])
    ensures CString(now, p) == was[p..dataLine][..dataLine - p - 1]
  {
    var v := was[p..dataLine][..dataLine - p - 1];
    assert now[p..dataLine - 1] == v;
    StringFrom(now, p, dataLine - 1, v);
    forall i | 0 <= i < |v| ensures v[i] != NUL {
      assert was[p..dataLine][i] != NUL;
    }
    CStringIs(now, p, v);
  }

  /** The value ends before the newline of its last line. */
  lemma MultiLineTagged(b: string, p: int, tag: string, noCase: bool, text: string, line: int, next: int)
    requires Ended(b) && 0 <= p < |b| && Lines(b, p, tag, noCase, false) == Tagged(text, line, next) && text != []
    ensures MultiLine(b, p, tag, noCase) == Some((text[..|text| - 1], next))
  {
  }

  lemma FrameAfterTag(b: string, was: string, now: string, p: int, dataLine: int, line: int, e: int, next: int)
    requires SameTo(b, was, p) && SameFrom(b, was, line) && SameTo(was, now, dataLine - 1) && SameFrom(was, now, e)
    requires p < dataLine && line <= e <= next
    ensures SameTo(b, now, p - 1) && SameFrom(b, now, next)
  {
  }

  lemma ReadIs(b: string, now: string, p: int, tag: string, noCase: bool, v: string, next: int)
    requires Ended(b) && Ended(now) && 0 < p <= next < |b| && SameTo(b, now, p - 1) && SameFrom(b, now, next)
    requires MultiLine(b, p, tag, noCase) == Some((v, next)) && CString(now, p) == v
    ensures Read(b, now, p, tag, noCase, next) == true
  {
  }

  /** The tag came after some lines. */
  lemma TagFound(b: string, was: string, now: string, p: int, tag: string, noCase: bool, dataLine: int, line: int,
                 e: int, next: int)
    requires Reading(b, was, p, tag, noCase, dataLine, line) && Ended(now) && 0 < p < dataLine
    requires Same(noCase, Seen(was, line, dataLine < line), tag) && e == Scan(was, line, LineEnd)
    requires SameTo(was, now, dataLine - 1) && now[dataLine - 1] == NUL && SameFrom(was, now, e)
    requires next == if was[e] == NUL then e else AfterNewLine(was, e)
    ensures Read(b, now, p, tag, noCase, next) == true
  {
    var text := was[p..dataLine];
    TaggedSoFar(b, was, p, tag, noCase, dataLine, line, e, next);
    MultiLineTagged(b, p, tag, noCase, text, line, next);
    CutOff(was, now, p, dataLine);
    FrameAfterTag(b, was, now, p, dataLine, line, e, next);
    ReadIs(b, now, p, tag, noCase, text[..|text| - 1], next);
  }

  /** The string of a tag on the first line. */
  lemma TagString(b: string, now: string, p: int, e: int)
    requires Ended(b) && 0 < p < |b| && e == Scan(b, p, LineEnd) && p < e
    requires var t := TagEnd(b, p, e); now == (if t < e then b[t := NUL] else b)[p - 1 := NUL]
    ensures Ended(now)
    ensures var t := TagEnd(b, p, e); CString(now, p) == if t < e then b[p..t] else CString(b, p)
  {
    var t := TagEnd(b, p, e);
    if t < e {
      LineNoNul(b, p);
      var v := b[p..t];
      assert now[p..t] == v && v == b[p..e][..t - p];
      StringFrom(now, p, t, v);
      CStringIs(now, p, v);
    } else {
      CStringAgrees(b, now, p);
    }
  }

  /** The tag was the first line. */
  lemma MultiLineFirst(b: string, p: int, tag: string, noCase: bool, e: int, next: int)
    requires Ended(b) && 0 < p < |b| && e == Scan(b, p, LineEnd)
    requires Same(noCase, Seen(b, p, false), tag)
    requires next == if b[e] == NUL then e else AfterNewLine(b, e)
    ensures MultiLine(b, p, tag, noCase) == if e == p then None
      else Some((if TagEnd(b, p, e) < e then b[p..TagEnd(b, p, e)] else CString(b, p), next))
  {
    assert Lines(b, p, tag, noCase, false) == Tagged([], p, next);
  }

  lemma TagFirst(b: string, now: string, p: int, tag: string, noCase: bool, e: int, next: int)
    requires Ended(b) && 0 < p < |b| && e == Scan(b, p, LineEnd) && p < e
    requires Same(noCase, Seen(b, p, false), tag)
    requires next == if b[e] == NUL then e else AfterNewLine(b, e)
    requires var t := TagEnd(b, p, e); now == (if t < e then b[t := NUL] else b)[p - 1 := NUL]
    ensures Read(b, now, p, tag, noCase, next) == true
  {
    MultiLineFirst(b, p, tag, noCase, e, next);
    TagString(b, now, p, e);
  }

  lemma NewLineAgrees(b: string, c: string, e: int)
    requires Ended(b) && SameFrom(b, c, e) && 0 <= e < |b| && (b[e] != NUL ==> IsNewLineChar(b[e]))
    ensures Ended(c) && c[e] == b[e] && (b[e] != NUL ==> AfterNewLine(c, e) == AfterNewLine(b, e))
  {
  }

  /** The NUL before the tag line goes in, the newline after it comes back, and reading goes on behind that. */
  method EndTagged(ghost was: string, buf: array<char>, dataLine: int, e: int, endOfLineChar: char) returns (data: int)
    requires Ended(was) && 0 < dataLine <= e < |was| == buf.Length && endOfLineChar == was[e]
    requires (was[e] != NUL ==> IsNewLineChar(was[e]))
    requires SameFrom(was, buf[..], e + 1)
    modifies buf
    ensures SameTo(old(buf[..]), buf[..], dataLine - 1) && buf[dataLine - 1] == NUL && SameFrom(was, buf[..], e)
    ensures Ended(buf[..])
    ensures forall i :: dataLine <= i < e ==> buf[i] == old(buf[i])
    ensures data == if was[e] == NUL then e else AfterNewLine(was, e)
  {
    buf[dataLine - 1] := NUL;
    data := e;
    buf[e] := endOfLineChar;
    NewLineAgrees(was, buf[..], e);
    if endOfLineChar != NUL {
      data := SkipNewLine(buf, e);
    }
  }

  lemma WholeSame(b: string, c: string, p: int)
    requires SameTo(b, c, p) && SameFrom(b, c, p)
    ensures b == c
  {
  }

  lemma Restored(was: string, mid: string, now: string, p: int, e: int)
    requires 0 < p <= e < |was| == |now| && mid == was[TagEnd(was, p, e) := NUL][e := NUL]
    requires SameTo(mid, now, p - 1) && now[p - 1] == NUL && SameFrom(was, now, e) && forall i :: p <= i < e ==>
      now[i] == mid[i]
    ensures var t := TagEnd(was, p, e); now == (if t < e then was[t := NUL] else was)[p - 1 := NUL]
  {
  }

  /** The end of a value whose tag is its first line. */
  method EndFirst(ghost b: string, ghost was: string, buf: array<char>, p: int, ghost tag: string, ghost noCase: bool,
                  e: int, endOfLineChar: char)
    returns (data: int)
    requires Reading(b, was, p, tag, noCase, p, p) && p < e && 0 < p && e == Scan(was, p, LineEnd)
    requires endOfLineChar == was[e]
    requires Same(noCase, Seen(was, p, false), tag) && buf[..] == was[TagEnd(was, p, e) := NUL][e := NUL]
    modifies buf
    ensures Read(b, buf[..], p, tag, noCase, data) == true
  {
    ghost var mid := buf[..];
    data := EndTagged(was, buf, p, e, endOfLineChar);
    WholeSame(b, was, p);
    Restored(was, mid, buf[..], p, e);
    TagFirst(b, buf[..], p, tag, noCase, e, data);
  }

  method EndLater(ghost b: string, ghost was: string, buf: array<char>, p: int, ghost tag: string, ghost noCase: bool,
                  dataLine: int, ghost line: int, e: int, endOfLineChar: char) returns (data: int)
    requires Reading(b, was, p, tag, noCase, dataLine, line) && 0 < p < dataLine
    requires Same(noCase, Seen(was, line, dataLine < line), tag) && e == Scan(was, line, LineEnd)
    requires endOfLineChar == was[e]
    requires SameTo(was, buf[..], dataLine) && SameFrom(was, buf[..], e + 1)
    modifies buf
    ensures Read(b, buf[..], p, tag, noCase, data) == true
  {
    data := EndTagged(was, buf, dataLine, e, endOfLineChar);
    TagFound(b, was, buf[..], p, tag, noCase, dataLine, line, e, data);
  }

  lemma NothingRead(b: string, was: string, p: int, tag: string, noCase: bool)
    requires Reading(b, was, p, tag, noCase, p, p) && Same(noCase, Seen(was, p, false), tag)
    requires p == Scan(was, p, LineEnd) && 0 < p
    ensures MultiLine(b, p, tag, noCase) == None
  {
    WholeSame(b, was, p);
    MultiLineFirst(b, p, tag, noCase, p, if b[p] == NUL then p else AfterNewLine(b, p));
  }

  /** A line that is not the tag. */
  method NextLine(ghost b: string, ghost was: string, buf: array<char>, p: int, ghost tag: string, ghost noCase: bool,
                  dataLine: int, line: int, e: int) returns (m: int, data: int)
    requires Reading(b, was, p, tag, noCase, dataLine, line) == true && 0 < p < |was| == buf.Length
    requires 0 <= dataLine <= line < |was| && Ended(was)
    requires !Same(noCase, Seen(was, line, dataLine < line), tag) && e == Scan(was, line, LineEnd) && was[e] != NUL
    requires buf[dataLine..dataLine + (e - line)] == was[line..e]
    requires SameTo(was, buf[..], dataLine) && SameFrom(was, buf[..], e) && Ended(buf[..])
    modifies buf
    ensures Reading(b, buf[..], p, tag, noCase, m, data) == true
    ensures line < data
  {
    NewLineAgrees(was, buf[..], e);
    ghost var mid := buf[..];
    m, data := EndLine(buf, dataLine, line, e);
    SameTwice(was, mid, buf[..], dataLine, e, dataLine, data);
    TagLineRead(b, was, buf[..], p, tag, noCase, dataLine, line, e, m, data);
  }

  /** The line with the tag. */
  method TagLine(ghost b: string, ghost was: string, buf: array<char>, p: int, ghost tag: string, ghost noCase: bool,
                 dataLine: int, ghost line: int, e: int, endOfLineChar: char) returns (found: bool, data: int)
    requires Reading(b, was, p, tag, noCase, dataLine, line) == true
    requires 0 < p <= dataLine <= line <= e < |was| == buf.Length && Ended(was)
    requires Same(noCase, Seen(was, line, dataLine < line), tag) && e == Scan(was, line, LineEnd)
    requires endOfLineChar == was[e]
    requires SameTo(was, buf[..], dataLine) && SameFrom(was, buf[..], e + 1)
    requires dataLine == line ==> buf[..] == was[TagEnd(was, line, e) := NUL][e := NUL]
    requires dataLine == p ==> line == p
    modifies buf
    ensures found ==> Read(b, buf[..], p, tag, noCase, data) == true
    ensures !found ==> MultiLine(b, p, tag, noCase) == None
  {
    found := true;
    if dataLine > p {
      data := EndLater(b, was, buf, p, tag, noCase, dataLine, line, e, endOfLineChar);
    } else if e > p {
      data := EndFirst(b, was, buf, p, tag, noCase, e, endOfLineChar);
    } else {
      NothingRead(b, was, p, tag, noCase);
      return false, p;
    }
  }

  /** One line, or the end. */
  method TagStep(ghost b: string, buf: array<char>, p: int, tag: string, noCase: bool, dataLine: int, line: int)
    returns (over: bool, found: bool, m: int, data: int)
    requires Reading(b, buf[..], p, tag, noCase, dataLine, line) == true && 0 < p
    modifies buf
    ensures !over ==> Reading(b, buf[..], p, tag, noCase, m, data) == true
    ensures !over ==> line < data
    ensures over && found ==> Read(b, buf[..], p, tag, noCase, data) == true
    ensures over && !found ==> MultiLine(b, p, tag, noCase) == None
  {
    ghost var was := buf[..];
    var e := ScanTo(buf, line, LineEnd);
    var endOfLineChar := buf[e];
    var matched := MatchTag(buf, dataLine, line, e, tag, noCase);
    m := dataLine;
    if matched {
      over := true;
      found, data := TagLine(b, was, buf, p, tag, noCase, dataLine, line, e, endOfLineChar);
    } else if endOfLineChar == NUL {
      over, found, data := true, true, e;
      LastReadLine(b, was, buf[..], p, tag, noCase, dataLine, line, e);
    } else {
      over, found := false, true;
      m, data := NextLine(b, was, buf, p, tag, noCase, dataLine, line, e);
    }
  }

  /** LoadMultiLineText for a value: the tag is not in the part of the buffer that is written. */
  method LoadTagged(buf: array<char>, p: int, tag: string, noCase: bool) returns (found: bool, data: int)
    requires Ended(buf[..]) && 0 < p < buf.Length
    modifies buf
    ensures found <==> MultiLine(old(buf[..]), p, tag, noCase).Some?
    ensures found ==> Read(old(buf[..]), buf[..], p, tag, noCase, data)
  {
    ghost var b := buf[..];
    var dataLine := p;
    data := p;
    LinesStart(b, p, tag, noCase);
    assert buf[p..p] == [];
    while true
      invariant Reading(b, buf[..], p, tag, noCase, dataLine, data) == true
      decreases buf.Length - data
    {
      var over, ok, m, next := TagStep(b, buf, p, tag, noCase, dataLine, data);
      if over {
        return ok, next;
      }
      dataLine, data := m, next;
    }
  }
}
