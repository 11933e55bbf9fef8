/** FindEntry of SimpleIni.h in place: the strings it finds stay in the buffer, each ended by a NUL. A clause that
    says `P(..) == true` states P as one fact, which the verifier does not unfold there. */
module IniFind {
  import opened Options
  import opened IniCompare
  import opened IniFormat
  import opened IniText
  import opened IniLoad
  import opened IniParse

  lemma {:induction false} TagEndAgrees(b: string, c: string, p: int, e: int)
    requires SameFrom(b, c, p) && 0 <= p <= e <= |b|
    ensures TagEnd(c, p, e) == TagEnd(b, p, e)
  {
    if p < e {
      SliceAgrees(b, c, p, p + 1, e);
      TrimAgrees(b, c, p + 1, e);
    }
  }

  lemma {:induction false} LinesAgree(b: string, c: string, p: int, tag: string, noCase: bool, moved: bool)
    requires Ended(b) && SameFrom(b, c, p) && 0 <= p < |b|
    ensures Ended(c) && Lines(c, p, tag, noCase, moved) == Lines(b, p, tag, noCase, moved)
    decreases |b| - p
  {
    LineAgrees(b, c, p, moved);
    var e := Scan(b, p, LineEnd);
    if b[e] != NUL && !Same(noCase, Seen(b, p, moved), tag) {
      var q := AfterNewLine(b, e);
      NewLineAgrees(b, c, e);
      LinesAgree(b, c, q, tag, noCase, moved || q == e + 2);
    }
  }

  lemma MultiLineAgrees(b: string, c: string, p: int, tag: string, noCase: bool)
    requires Ended(b) && SameFrom(b, c, p) && 0 <= p < |b|
    ensures Ended(c) && MultiLine(c, p, tag, noCase) == MultiLine(b, p, tag, noCase)
  {
    LinesAgree(b, c, p, tag, noCase, false);
    ScanAgrees(b, c, p, LineEnd);
    CStringAgrees(b, c, p);
    var e := Scan(b, p, LineEnd);
    TagEndAgrees(b, c, p, e);
    SliceAgrees(b, c, p, p, TagEnd(b, p, e));
  }

  /** A piece of a line, ended by a NUL. */
  lemma PieceString(b: string, now: string, p: int, lo: int, hi: int)
    requires Ended(b) && 0 <= p < |b| && p <= lo <= hi <= Scan(b, p, LineEnd) && now == b[hi := NUL]
    ensures Ended(now) && CString(now, lo) == b[lo..hi]
  {
    LineNoNul(b, p);
    var v := b[lo..hi];
    assert now[lo..hi] == v && v == b[p..Scan(b, p, LineEnd)][lo - p..hi - p];
    StringFrom(now, lo, hi, v);
    CStringIs(now, lo, v);
  }

  lemma CutSame(b: string, now: string, t: int, l: int, n: int)
    requires Ended(b) && 0 <= t <= l < |b| && now == b[t := NUL]
    requires n == if b[l] == NUL then l else n
    requires l <= n && (b[l] != NUL ==> l < n)
    ensures SameFrom(b, now, n) && SameTo(b, now, t)
  {
  }

  // ------------------------------------------------------------------ where the strings end

  /** The string at ptr ends in the part of the buffer that has been read, so that reading on leaves it alone. */
  ghost predicate EndsBy(now: string, ptr: int, data: int) {
    Ended(now) && 0 <= ptr < |now| && ptr + |CString(now, ptr)| <= data
  }

  /** The value behind the '=' at e is a block with its tag on the first line and no white space behind: all the rest
      of the text. */
  ghost predicate RestOfText(f: Format, b: string, e: int)
    requires Ended(b) && 0 <= e && e + 1 < |b|
  {
    var v := Scan(b, e + 1, NotBlank);
    var l := Scan(b, v, LineEnd);
    var t := TrimEnd(b, v, l);
    var n := if b[l] == NUL then l else AfterNewLine(b, l);
    f.multiLine && IsMultiLineTag(b[v..t]) && FirstIsTag(b, n, b[v + 3..t], f.noCase)
  }

  ghost predicate FirstIsTag(b: string, p: int, tag: string, noCase: bool)
    requires Ended(b) && 0 <= p < |b|
  {
    var e := Scan(b, p, LineEnd);
    p < e && TagEnd(b, p, e) == e && Same(noCase, b[p..e], tag)
  }

  lemma LinesEnd(b: string, p: int, tag: string, noCase: bool, v: string, next: int)
    requires Ended(b) && 0 <= p < |b| && MultiLine(b, p, tag, noCase) == Some((v, next))
    requires !FirstIsTag(b, p, tag, noCase)
    ensures p + |v| <= next
  {
  }

  /** What ReadValue leaves behind. */
  ghost predicate ValueRead(f: Format, b: string, now: string, e: int, pVal: int, data: int) {
    && Ended(b) && Ended(now) && 0 <= e && e + 1 < |b| && e < pVal < |now|
    && SameTo(b, now, e + 1) && SameFrom(b, now, data)
    && Value(f, b, e) == Some((CString(now, pVal), data))
    && (EndsBy(now, pVal, data) || RestOfText(f, b, e))
  }

  /** The value behind the '=' at e lies from v to t on a line that ends at l; the next line starts at n. */
  ghost predicate Pieces(b: string, e: int, v: int, l: int, t: int, n: int) {
    && Ended(b) && 0 <= e && e + 1 < |b|
    && v == Scan(b, e + 1, NotBlank) && l == Scan(b, v, LineEnd) && t == TrimEnd(b, v, l)
    && n == (if b[l] == NUL then l else AfterNewLine(b, l))
  }

  lemma PiecesOrder(b: string, e: int, v: int, l: int, t: int, n: int)
    requires Pieces(b, e, v, l, t, n)
    ensures e < v <= t <= l <= n < |b| && (b[l] != NUL ==> l < n)
  {
  }

  lemma PiecesTagged(f: Format, b: string, e: int, v: int, l: int, t: int, n: int)
    requires Pieces(b, e, v, l, t, n) && f.multiLine && IsMultiLineTag(b[v..t])
    ensures Value(f, b, e) == MultiLine(b, n, b[v + 3..t], f.noCase)
  {
  }

  lemma PiecesPlain(f: Format, b: string, e: int, v: int, l: int, t: int, n: int)
    requires Pieces(b, e, v, l, t, n) && !(f.multiLine && IsMultiLineTag(b[v..t]))
    ensures Value(f, b, e) == Some((Unquoted(f, b[v..t]), n))
  {
  }

  lemma LinesRead(b: string, mid: string, now: string, e: int, t: int, n: int, data: int)
    requires SameFrom(b, mid, n) && SameTo(b, mid, t) && SameTo(mid, now, n - 1) && SameFrom(mid, now, data)
    requires e + 1 <= t <= n <= data && e + 1 <= n - 1
    ensures SameTo(b, now, e + 1) && SameFrom(b, now, data)
  {
  }

  lemma TagLineEnds(f: Format, b: string, now: string, e: int, v: int, l: int, t: int, n: int, data: int)
    requires Pieces(b, e, v, l, t, n) && f.multiLine && IsMultiLineTag(b[v..t])
    requires Ended(now) && 0 <= n < |now| && Value(f, b, e) == Some((CString(now, n), data))
    ensures EndsBy(now, n, data) || RestOfText(f, b, e)
  {
    PiecesTagged(f, b, e, v, l, t, n);
    if !FirstIsTag(b, n, b[v + 3..t], f.noCase) {
      LinesEnd(b, n, b[v + 3..t], f.noCase, CString(now, n), data);
    }
  }

  lemma LinesAreValue(f: Format, b: string, mid: string, now: string, e: int, v: int, l: int, t: int, n: int, data: int)
    requires Pieces(b, e, v, l, t, n) && f.multiLine && IsMultiLineTag(b[v..t])
    requires SameFrom(b, mid, n) && SameTo(b, mid, t) && Ended(mid)
    requires MultiLine(mid, n, b[v + 3..t], f.noCase) == MultiLine(b, n, b[v + 3..t], f.noCase)
    requires Read(mid, now, n, b[v + 3..t], f.noCase, data)
    ensures ValueRead(f, b, now, e, n, data) == true
  {
    PiecesTagged(f, b, e, v, l, t, n);
    LinesRead(b, mid, now, e, t, n, data);
    TagLineEnds(f, b, now, e, v, l, t, n, data);
  }

  /** The tag of a multi-line value, and the lines behind it. */
  method ReadLines(f: Format, ghost b: string, buf: array<char>, ghost e: int, v: int, ghost l: int, ghost t: int,
                   n: int)
    returns (found: bool, data: int)
    requires Pieces(b, e, v, l, t, n) && f.multiLine && IsMultiLineTag(b[v..t]) && buf[..] == b[t := NUL]
    modifies buf
    ensures found <==> Value(f, b, e).Some?
    ensures found ==> ValueRead(f, b, buf[..], e, n, data) == true
  {
    ghost var mid := buf[..];
    PiecesOrder(b, e, v, l, t, n);
    PiecesTagged(f, b, e, v, l, t, n);
    PieceString(b, mid, v, v + 3, t);
    CutSame(b, mid, t, l, n);
    MultiLineAgrees(b, mid, n, b[v + 3..t], f.noCase);
    var tag := ReadString(buf, v + 3);
    found, data := LoadTagged(buf, n, tag, f.noCase);
    if found {
      LinesAreValue(f, b, mid, buf[..], e, v, l, t, n, data);
    }
  }

  lemma PlainString(f: Format, b: string, now: string, e: int, v: int, l: int, t: int, n: int)
    requires Pieces(b, e, v, l, t, n) && !(f.multiLine && IsMultiLineTag(b[v..t])) && Unquoted(f, b[v..t]) == b[v..t]
    requires now == b[t := NUL]
    ensures ValueRead(f, b, now, e, v, n) == true
  {
    PiecesOrder(b, e, v, l, t, n);
    PiecesPlain(f, b, e, v, l, t, n);
    PieceString(b, now, v, v, t);
    CutSame(b, now, t, l, n);
  }

  lemma PieceInside(b: string, now: string, p: int, lo: int, hi: int, t: int)
    requires Ended(b) && 0 <= p < |b| && p <= lo <= hi < t <= Scan(b, p, LineEnd) && now == b[t := NUL][hi := NUL]
    ensures Ended(now) && CString(now, lo) == b[lo..hi]
  {
    LineNoNul(b, p);
    var v := b[lo..hi];
    assert now[lo..hi] == v && v == b[p..Scan(b, p, LineEnd)][lo - p..hi - p];
    StringFrom(now, lo, hi, v);
    CStringIs(now, lo, v);
  }

  lemma {:induction false} StringOf(b: string, p: int)
    requires Ended(b) && 0 <= p < |b|
    ensures StringAt(b, p, CString(b, p))
    decreases |b| - p
  {
    if b[p] != NUL {
      StringOf(b, p + 1);
      var s := CString(b, p + 1);
      assert b[p..p + 1 + |s|] == [b[p]] + b[p + 1..p + 1 + |s|];
    }
  }

  lemma SliceOfSlice(b: string, lo: int, hi: int, i: int, j: int)
    requires 0 <= lo <= hi <= |b| && 0 <= i <= j <= hi - lo
    ensures b[lo..hi][i..j] == b[lo + i..lo + j]
  {
    var x, y := b[lo..hi][i..j], b[lo + i..lo + j];
    assert |x| == |y|;
    forall k | 0 <= k < |x| ensures x[k] == y[k] {
      assert b[lo..hi][i + k] == b[lo + i + k];
    }
  }

  lemma QuotedString(f: Format, b: string, now: string, e: int, v: int, l: int, t: int, n: int)
    requires Pieces(b, e, v, l, t, n) && !(f.multiLine && IsMultiLineTag(b[v..t]))
    requires f.parseQuotes && t - v >= 2 && b[v] == '"' && b[t - 1] == '"' && now == b[t := NUL][t - 1 := NUL]
    ensures ValueRead(f, b, now, e, v + 1, n) == true
  {
    PiecesOrder(b, e, v, l, t, n);
    PiecesPlain(f, b, e, v, l, t, n);
    PieceInside(b, now, v, v + 1, t - 1, t);
    SliceOfSlice(b, v, t, 1, t - v - 1);
    CutSame(b, b[t := NUL], t, l, n);
  }

  method ReadPlain(f: Format, ghost b: string, buf: array<char>, ghost e: int, v: int, ghost l: int, t: int,
                   ghost n: int)
    returns (pVal: int)
    requires Pieces(b, e, v, l, t, n) && !(f.multiLine && IsMultiLineTag(b[v..t])) && buf[..] == b[t := NUL]
    modifies buf
    ensures ValueRead(f, b, buf[..], e, pVal, n) == true
  {
    PiecesOrder(b, e, v, l, t, n);
    var last := t - 1;
    if f.parseQuotes && last > v && buf[v] == '"' && buf[last] == '"' {
      pVal := v + 1;
      buf[last] := NUL;
      QuotedString(f, b, buf[..], e, v, l, t, n);
    } else {
      pVal := v;
      assert Unquoted(f, b[v..t]) == b[v..t];
      PlainString(f, b, buf[..], e, v, l, t, n);
    }
  }

  /** The value behind the '=' at e. */
  method ReadValue(f: Format, buf: array<char>, e: int) returns (found: bool, pVal: int, data: int)
    requires Ended(buf[..]) && 0 <= e && e + 1 < buf.Length
    modifies buf
    ensures found <==> Value(f, old(buf[..]), e).Some?
    ensures found ==> ValueRead(f, old(buf[..]), buf[..], e, pVal, data) == true
  {
    ghost var b := buf[..];
    var v := ScanTo(buf, e + 1, NotBlank);
    var l := ScanTo(buf, v, LineEnd);
    var t := TrimTo(buf, v, l);
    data := l;
    if buf[l] != NUL {
      data := SkipNewLine(buf, l);
    }
    assert Pieces(b, e, v, l, t, data);
    buf[t] := NUL;
    PieceString(b, buf[..], v, v, t);
    var text := ReadString(buf, v);
    pVal := v;
    if f.multiLine && IsMultiLineTag(text) {
      pVal := data;
      found, data := ReadLines(f, b, buf, e, v, l, t, data);
    } else {
      found := true;
      PiecesPlain(f, b, e, v, l, t, data);
      pVal := ReadPlain(f, b, buf, e, v, l, t, data);
    }
  }

  // ------------------------------------------------------------------ the loop of FindEntry

  /** A string in the part of the buffer that has been read. */
  ghost predicate Held(now: string, ptr: int, v: string, data: int) {
    Ended(now) && 0 <= ptr < |now| && CString(now, ptr) == v && ptr + |v| <= data
  }

  lemma StringStays(now: string, later: string, ptr: int, v: string, limit: int)
    requires Ended(now) && Ended(later) && 0 <= ptr < |now| && CString(now, ptr) == v && ptr + |v| < limit
    requires SameTo(now, later, limit)
    ensures CString(later, ptr) == v
  {
    StringOf(now, ptr);
    CStringNoNul(now, ptr);
    assert later[ptr..ptr + |v|] == now[ptr..ptr + |v|];
    StringFrom(later, ptr, ptr + |v|, v);
    CStringIs(later, ptr, v);
  }

  lemma HeldBelow(now: string, ptr: int, v: string, data: int)
    requires Held(now, ptr, v, data) && 0 <= data < |now| && now[data] != NUL
    ensures ptr + |v| < data
  {
    StringOf(now, ptr);
  }

  lemma HeldStays(now: string, later: string, ptr: int, v: string, data: int, next: int)
    requires Held(now, ptr, v, data) && 0 <= data < |now| && now[data] != NUL && SameTo(now, later, data)
    requires Ended(later) && data <= next
    ensures Held(later, ptr, v, next) == true
  {
    HeldBelow(now, ptr, v, data);
    StringStays(now, later, ptr, v, data);
  }

  lemma {:induction false} CStringNoNul(b: string, p: int)
    requires Ended(b) && 0 <= p < |b|
    ensures NUL !in CString(b, p)
    decreases |b| - p
  {
    if b[p] != NUL {
      CStringNoNul(b, p + 1);
    }
  }

  ghost predicate CommentHeld(now: string, data: int, comment: Option<string>, pComment: int) {
    if comment.None? then pComment < 0 else Held(now, pComment, comment.value, data)
  }

  /** A section pointer below 0 is the one that FindEntry was called with. */
  ghost predicate SectionHeld(b: string, now: string, section: string, data: int, s: SectionAt, pSection: int) {
    match s
    case Named(name) => if pSection < 0 then name == section else Held(now, pSection, name, data)
    case Raw(at) => pSection == at && 0 <= at <= data < |b| && SameFrom(b, now, at) && NoNul(b[at..data])
  }

  ghost predicate Finding(f: Format, b: string, now: string, p: int, section: string, data: int,
                          s: SectionAt, pSection: int, comment: Option<string>, pComment: int) {
    && Ended(b) && Ended(now) && 0 <= p <= data < |b| && SameTo(b, now, p) && SameFrom(b, now, data)
    && (s.Raw? ==> p <= s.at <= data)
    && NextEntry(f, b, p, Named(section), None) == NextEntry(f, b, data, s, comment)
    && SectionHeld(b, now, section, data, s, pSection)
    && CommentHeld(now, data, comment, pComment)
  }

  lemma NoNulExtends(b: string, at: int, data: int, u: Until)
    requires Ended(b) && 0 <= at <= data < |b| && NoNul(b[at..data])
    ensures NoNul(b[at..Scan(b, data, u)])
  {
    var q := Scan(b, data, u);
    var text := b[at..q];
    forall i | 0 <= i < |text| ensures text[i] != NUL {
      if at + i < data {
        assert b[at..data][i] == text[i];
      } else {
        LineHasNoNul(b, data, u, at + i);
      }
    }
  }

  lemma {:induction false} CommentsNoNul(b: string, p: int, blank: bool)
    requires Ended(b) && 0 <= p < |b| && IsComment(b[p])
    ensures NoNul(Comments(b, p, blank).0)
    decreases |b| - p
  {
    LineNoNul(b, p);
    var e := Scan(b, p, LineEnd);
    if b[e] != NUL {
      var q := AfterNewLine(b, e);
      var k := SkipBlank(b, q, 0);
      if IsComment(b[q]) {
        CommentsNoNul(b, q, blank);
        ThreeNoNul(b[p..e], [], Comments(b, q, blank).0);
      } else if blank && IsComment(b[k.1]) {
        CommentsNoNul(b, k.1, blank);
        NewLinesNoNul(k.0);
        ThreeNoNul(b[p..e], NewLines(k.0), Comments(b, k.1, blank).0);
      }
    }
  }

  lemma {:induction false} NewLinesNoNul(n: int)
    requires n >= 0
    ensures NoNul(NewLines(n))
  {
    if n > 0 {
      NewLinesNoNul(n - 1);
    }
  }

  lemma ThreeNoNul(a: string, b: string, c: string)
    requires NoNul(a) && NoNul(b) && NoNul(c)
    ensures NoNul(a + "\n" + b + c)
    ensures NoNul(a + "\n" + c)
  {
  }

  lemma {:induction false} ScanTwice(b: string, p: int, u: Until)
    requires Ended(b) && 0 <= p < |b|
    ensures Scan(b, Scan(b, p, u), u) == Scan(b, p, u)
  {
  }

  lemma SkipsSpace(f: Format, b: string, p: int, s: SectionAt, comment: Option<string>)
    requires Ended(b) && 0 <= p < |b| && (s.Raw? ==> 0 <= s.at <= p)
    ensures NextEntry(f, b, Scan(b, p, NotSpace), s, comment) == NextEntry(f, b, p, s, comment)
  {
    ScanTwice(b, p, NotSpace);
  }

  /** Reading on without writing keeps what is held. */
  lemma StillHeld(b: string, now: string, section: string, data: int, s: SectionAt, pSection: int,
                  comment: Option<string>, pComment: int, next: int)
    requires SectionHeld(b, now, section, data, s, pSection) && CommentHeld(now, data, comment, pComment)
    requires data <= next < |b|
    requires s.Raw? ==> NoNul(b[s.at..next])
    ensures SectionHeld(b, now, section, next, s, pSection) && CommentHeld(now, next, comment, pComment)
  {
  }

  lemma AfterSpace(f: Format, b: string, now: string, p: int, section: string, data: int, s: SectionAt, pSection: int,
                   comment: Option<string>, pComment: int)
    requires Finding(f, b, now, p, section, data, s, pSection, comment, pComment)
    ensures Finding(f, b, now, p, section, Scan(b, data, NotSpace), s, pSection, comment, pComment) == true
  {
    SkipsSpace(f, b, data, s, comment);
    if s.Raw? {
      NoNulExtends(b, s.at, data, NotSpace);
    }
    StillHeld(b, now, section, data, s, pSection, comment, pComment, Scan(b, data, NotSpace));
  }

  // ------------------------------------------------------------------ what one look at the text decides

  lemma AtComment(f: Format, b: string, q: int, s: SectionAt, comment: Option<string>)
    requires Ended(b) && 0 <= q < |b| && IsComment(b[q]) && (s.Raw? ==> 0 <= s.at <= q)
    ensures var c := Comments(b, q, true);
            NextEntry(f, b, q, s, comment) == NextEntry(f, b, c.1, Named(Settled(b, s, q, c.0)), Some(c.0))
  {
    assert Scan(b, q, NotSpace) == q;
  }

  lemma AtBracket(f: Format, b: string, q: int, s: SectionAt, comment: Option<string>, n: int, e: int)
    requires Ended(b) && 0 <= q < |b| && b[q] == '[' && (s.Raw? ==> 0 <= s.at <= q)
    requires n == Scan(b, q + 1, NotSpace) && e == Scan(b, n, Bracket)
    ensures NextEntry(f, b, q, s, comment) == if b[e] != ']' then NextEntry(f, b, e, Raw(n), comment)
      else SectionFound(b[n..TrimEnd(b, n, e)], comment, Scan(b, e + 1, LineEnd))
  {
    assert Scan(b, q, NotSpace) == q;
  }

  lemma AtKey(f: Format, b: string, q: int, s: SectionAt, comment: Option<string>, e: int)
    requires Ended(b) && 0 <= q < |b| && !IsSpace(b[q]) && !IsComment(b[q]) && b[q] != '[' && b[q] != NUL
    requires (s.Raw? ==> 0 <= s.at <= q)
    requires e == Scan(b, q, Equals)
    ensures b[e] != '=' ==> NextEntry(f, b, q, s, comment) == NextEntry(f, b, e, s, comment)
    ensures b[e] == '=' && e == q ==> NextEntry(f, b, q, s, comment) == NextEntry(f, b, Scan(b, e, LineEnd), s, comment)
    ensures b[e] == '=' && e > q && Value(f, b, e).None? ==> NextEntry(f, b, q, s, comment) == NoMore
    ensures b[e] == '=' && e > q && Value(f, b, e).Some? ==>
      NextEntry(f, b, q, s, comment)
      == KeyFound(Settled(b, s, TrimEnd(b, q, e), []), b[q..TrimEnd(b, q, e)], Value(f, b, e).value.0, comment,
                  Value(f, b, e).value.1)
  {
    assert Scan(b, q, NotSpace) == q;
  }

  lemma BadHeader(f: Format, b: string, now: string, p: int, section: string, data: int, s: SectionAt, pSection: int,
                  comment: Option<string>, pComment: int, n: int, e: int)
    requires Finding(f, b, now, p, section, data, s, pSection, comment, pComment) && b[data] == '['
    requires n == Scan(b, data + 1, NotSpace) && e == Scan(b, n, Bracket) && b[e] != ']'
    ensures Finding(f, b, now, p, section, e, Raw(n), n, comment, pComment) == true
  {
    AtBracket(f, b, data, s, comment, n, e);
    assert b[n..n] == [];
    NoNulExtends(b, n, n, Bracket);
    HeldLater(now, data, comment, pComment, e);
  }

  lemma HeldLater(now: string, data: int, comment: Option<string>, pComment: int, next: int)
    requires CommentHeld(now, data, comment, pComment) && data <= next
    ensures CommentHeld(now, next, comment, pComment)
  {
  }

  lemma NoValue(f: Format, b: string, now: string, p: int, section: string, data: int, s: SectionAt, pSection: int,
                comment: Option<string>, pComment: int, e: int)
    requires Finding(f, b, now, p, section, data, s, pSection, comment, pComment)
    requires !IsSpace(b[data]) && !IsComment(b[data]) && b[data] != '[' && b[data] != NUL && e == Scan(b, data, Equals)
    requires b[e] != '=' || e == data
    ensures Finding(f, b, now, p, section, if b[e] != '=' then e
                    else Scan(b, e, LineEnd), s, pSection, comment, pComment) == true
  {
    AtKey(f, b, data, s, comment, e);
    if s.Raw? {
      NoNulExtends(b, s.at, data, Equals);
      NoNulExtends(b, s.at, e, LineEnd);
    }
    StillHeld(b, now, section, data, s, pSection, comment, pComment, if b[e] != '=' then e else Scan(b, e, LineEnd));
  }

  // ------------------------------------------------------------------ what one step writes

  lemma CommentString(was: string, now: string, data: int, next: int)
    requires Loaded(was, now, data, true, next)
    ensures Held(now, data, Comments(was, data, true).0, next)
  {
    CommentsNoNul(was, data, true);
    NoNulIn(Comments(was, data, true).0);
    CStringIs(now, data, Comments(was, data, true).0);
  }

  lemma NoNulIn(s: string)
    requires NoNul(s)
    ensures NUL !in s
  {
  }

  /** A string that starts before what has just been written, and runs into it. */
  lemma RunsInto(was: string, now: string, at: int, data: int, text: string)
    requires 0 <= at <= data && SameTo(was, now, data) && Ended(now) && data + |text| < |now|
    requires StringAt(now, data, text)
    requires NoNul(was[at..data]) && NoNul(text)
    ensures CString(now, at) == was[at..data] + text
  {
    Extended(was, now, at, data, data + |text|, text);
    StringFrom(now, at, data + |text|, was[at..data] + text);
    BothNoNul(was[at..data], text);
    CStringIs(now, at, was[at..data] + text);
  }

  lemma SectionSettles(b: string, was: string, now: string, section: string, data: int, s: SectionAt, pSection: int,
                       text: string, next: int)
    requires SectionHeld(b, was, section, data, s, pSection) && 0 <= data < |was| && was[data] != NUL && Ended(now)
    requires SameTo(was, now, data) && data + |text| < |now| && StringAt(now, data, text) && NoNul(text)
    requires data + |text| <= next < |b|
    requires s.Raw? ==> 0 <= s.at <= data
    ensures SectionHeld(b, now, section, next, Named(Settled(b, s, data, text)), pSection) == true
  {
    match s
    case Named(name) =>
      if pSection >= 0 {
        HeldStays(was, now, pSection, name, data, next);
      }
    case Raw(at) =>
      SliceAgrees(b, was, at, at, data);
      RunsInto(was, now, at, data, text);
  }

  method ReadComment(ghost f: Format, ghost b: string, buf: array<char>, ghost p: int, ghost section: string, data: int,
                     ghost s: SectionAt, ghost pSection: int, ghost comment: Option<string>, ghost pComment: int)
    returns (next: int)
    requires Finding(f, b, buf[..], p, section, data, s, pSection, comment, pComment) == true
    requires 0 <= data < |b| == buf.Length && Ended(b) && IsComment(b[data]) && (s.Raw? ==> 0 <= s.at <= data)
    modifies buf
    ensures next == Comments(b, data, true).1
    ensures var text := Comments(b, data, true).0;
            Finding(f, b, buf[..], p, section, next, Named(Settled(b, s, data, text)), pSection, Some(text), data)
              == true
  {
    ghost var was := buf[..];
    CommentsAgree(b, was, data, true);
    AtComment(f, b, data, s, comment);
    var found;
    found, next := LoadComment(buf, data, true);
    CommentString(was, buf[..], data, next);
    CommentsNoNul(b, data, true);
    SectionSettles(b, was, buf[..], section, data, s, pSection, Comments(b, data, true).0, next);
    SameTwice(b, was, buf[..], p, data, data, next);
  }

  // ------------------------------------------------------------------ what FindEntry returns

  ghost predicate SectionIs(now: string, section: string, pSection: int, name: string) {
    if pSection < 0 then name == section else Ended(now) && pSection < |now| && CString(now, pSection) == name
  }

  ghost predicate CommentIs(now: string, comment: Option<string>, pComment: int) {
    if comment.None? then pComment < 0
    else Ended(now) && 0 <= pComment < |now| && CString(now, pComment) == comment.value
  }

  /** The strings at the pointers are those of the entry; only text between p and the new place of reading has been
      written. */
  ghost predicate Returns(b: string, now: string, p: int, section: string, r: Found, data: int, pSection: int,
                          pKey: int, pVal: int, pComment: int) {
    && Ended(now) && 0 <= p < data < |b| && SameTo(b, now, p) && SameFrom(b, now, data)
    && match r
       case SectionFound(name, comment, next) =>
         data == next && pKey < 0 && SectionIs(now, section, pSection, name) && CommentIs(now, comment, pComment)
       case KeyFound(name, key, value, comment, next) =>
         && data == next && SectionIs(now, section, pSection, name) && CommentIs(now, comment, pComment)
         && 0 <= pKey < |now| && CString(now, pKey) == key && 0 <= pVal < |now| && CString(now, pVal) == value
       case NoMore => false
  }

  /** Every string ends in the part of the buffer that has been read, but for a value that is all the rest of the
      text. */
  ghost predicate AllEnd(f: Format, b: string, now: string, r: Found, data: int, pSection: int, pKey: int, pVal: int,
                         pComment: int) {
    && (pSection >= 0 ==> EndsBy(now, pSection, data))
    && (pComment >= 0 ==> EndsBy(now, pComment, data))
    && (r.KeyFound? ==> EndsBy(now, pKey, data) && (EndsBy(now, pVal, data) || IsRestOfText(f, b, r)))
  }

  ghost predicate IsRestOfText(f: Format, b: string, r: Found)
    requires r.KeyFound?
  {
    Ended(b) && exists e :: 0 <= e && e + 1 < |b| && RestOfText(f, b, e) && Value(f, b, e) == Some((r.value, r.next))
  }

  lemma CutString(was: string, now: string, lo: int, hi: int)
    requires Ended(was) && 0 <= lo <= hi < |was| && now == was[hi := NUL] && NoNul(was[lo..hi])
    ensures Ended(now) && CString(now, lo) == was[lo..hi] && SameTo(was, now, hi)
  {
    var v := was[lo..hi];
    assert now[lo..hi] == v;
    StringFrom(now, lo, hi, v);
    NoNulIn(v);
    CStringIs(now, lo, v);
  }

  lemma ScanPieceNoNul(b: string, p: int, u: Until, t: int)
    requires Ended(b) && 0 <= p < |b| && p <= t <= Scan(b, p, u)
    ensures NoNul(b[p..t])
  {
    var text := b[p..t];
    forall i | 0 <= i < |text| ensures text[i] != NUL {
      LineHasNoNul(b, p, u, p + i);
    }
  }

  lemma CommentStays(was: string, now: string, data: int, comment: Option<string>, pComment: int)
    requires CommentHeld(was, data, comment, pComment) && 0 <= data < |was| && was[data] != NUL
    requires SameTo(was, now, data) && Ended(now)
    ensures CommentIs(now, comment, pComment)
  {
    if comment.Some? {
      HeldStays(was, now, pComment, comment.value, data, data);
    }
  }

  lemma HeaderRead(f: Format, b: string, was: string, now: string, p: int, section: string, data: int, s: SectionAt,
                   pSection: int, comment: Option<string>, pComment: int, n: int, e: int, t: int, next: int)
    requires Finding(f, b, was, p, section, data, s, pSection, comment, pComment) == true && Ended(b)
    requires 0 <= p <= data < |b| && b[data] == '['
    requires SameTo(b, was, p) && SameFrom(b, was, data) && CommentHeld(was, data, comment, pComment)
    requires (s.Raw? ==> 0 <= s.at <= data)
    requires n == Scan(b, data + 1, NotSpace) && e == Scan(b, n, Bracket) && b[e] == ']'
    requires t == TrimEnd(b, n, e) && now == was[t := NUL] && next == Scan(b, e + 1, LineEnd)
    ensures NextEntry(f, b, data, s, comment) == SectionFound(b[n..t], comment, next)
    ensures Returns(b, now, p, section, SectionFound(b[n..t], comment, next), next, n, -1, -1, pComment) == true
    ensures AllEnd(f, b, now, SectionFound(b[n..t], comment, next), next, n, -1, -1, pComment) == true
  {
    AtBracket(f, b, data, s, comment, n, e);
    ScanPieceNoNul(b, n, Bracket, t);
    SliceAgrees(b, was, data, n, t);
    CutString(was, now, n, t);
    CommentStays(was, now, data, comment, pComment);
  }

  method ReadHeader(ghost f: Format, ghost b: string, buf: array<char>, ghost p: int, ghost section: string,
                    ghost data: int, ghost s: SectionAt, ghost pSection: int, ghost comment: Option<string>,
                    ghost pComment: int, n: int, e: int)
    returns (next: int)
    requires Finding(f, b, buf[..], p, section, data, s, pSection, comment, pComment) == true && Ended(b)
    requires 0 <= data < |b| && b[data] == '['
    requires n == Scan(b, data + 1, NotSpace) && e == Scan(b, n, Bracket) && b[e] == ']'
    modifies buf
    ensures Returns(b, buf[..], p, section, NextEntry(f, b, p, Named(section), None), next, n, -1, -1, pComment) == true
    ensures AllEnd(f, b, buf[..], NextEntry(f, b, p, Named(section), None), next, n, -1, -1, pComment) == true
  {
    ghost var was := buf[..];
    TrimSame(b, was, data, n, e);
    var t := TrimTo(buf, n, e);
    buf[t] := NUL;
    assert SameFrom(b, buf[..], e + 1);
    ScanAgrees(b, buf[..], e + 1, LineEnd);
    next := ScanTo(buf, e + 1, LineEnd);
    HeaderRead(f, b, was, buf[..], p, section, data, s, pSection, comment, pComment, n, e, t, next);
  }

  lemma TrimSame(b: string, was: string, data: int, n: int, e: int)
    requires SameFrom(b, was, data) && 0 <= data <= n <= e <= |b|
    ensures TrimEnd(was, n, e) == TrimEnd(b, n, e)
  {
    SliceAgrees(b, was, data, n, e);
    TrimAgrees(b, was, n, e);
  }

  lemma PiecesAgree(b: string, c: string, e: int, v: int, l: int, t: int, n: int)
    requires Pieces(b, e, v, l, t, n) && SameFrom(b, c, e + 1)
    ensures Pieces(c, e, v, l, t, n) && c[v..t] == b[v..t] && SameFrom(b, c, n)
  {
    ScanAgrees(b, c, e + 1, NotBlank);
    ScanAgrees(b, c, v, LineEnd);
    TrimSame(b, c, e + 1, v, l);
    NewLineAgrees(b, c, l);
    SliceAgrees(b, c, e + 1, v, t);
  }

  lemma TagAgrees(b: string, c: string, v: int, t: int)
    requires 0 <= v && v + 3 <= t <= |b| == |c| && b[v..t] == c[v..t]
    ensures b[v + 3..t] == c[v + 3..t]
  {
    assert b[v + 3..t] == b[v..t][3..] && c[v + 3..t] == c[v..t][3..];
  }

  lemma ValueAgrees(f: Format, b: string, c: string, e: int)
    requires Ended(b) && 0 <= e && e + 1 < |b| && SameFrom(b, c, e + 1)
    ensures Ended(c) && Value(f, c, e) == Value(f, b, e)
  {
    var v := Scan(b, e + 1, NotBlank);
    var l := Scan(b, v, LineEnd);
    var t := TrimEnd(b, v, l);
    var n := if b[l] == NUL then l else AfterNewLine(b, l);
    PiecesAgree(b, c, e, v, l, t, n);
    if f.multiLine && IsMultiLineTag(b[v..t]) {
      TagAgrees(b, c, v, t);
      MultiLineAgrees(b, c, n, b[v + 3..t], f.noCase);
      PiecesTagged(f, b, e, v, l, t, n);
      PiecesTagged(f, c, e, v, l, t, n);
    } else {
      PiecesPlain(f, b, e, v, l, t, n);
      PiecesPlain(f, c, e, v, l, t, n);
    }
  }

  /** The strings that the key line has left, all before the value. */
  ghost predicate KeyIs(b: string, mid: string, section: string, limit: int, name: string, pSection: int,
                        comment: Option<string>, pComment: int, key: string, pKey: int) {
    && Ended(mid) && 0 <= pKey < |mid| && CString(mid, pKey) == key && pKey + |key| < limit
    && (if pSection < 0 then name == section
        else pSection < |mid| && CString(mid, pSection) == name && pSection + |name| < limit)
    && (if comment.None? then pComment < 0
        else 0 <= pComment < |mid| && CString(mid, pComment) == comment.value && pComment + |comment.value| < limit)
  }

  lemma KeySection(b: string, was: string, mid: string, section: string, data: int, s: SectionAt, pSection: int, t: int,
                   e: int)
    requires SectionHeld(b, was, section, data, s, pSection) && 0 <= data < t <= e < |b| && |b| == |was|
    requires was[data] != NUL
    requires Ended(was) && mid == was[t := NUL] && (s.Raw? ==> 0 <= s.at <= data && NoNul(b[s.at..t]))
    ensures SectionIs(mid, section, pSection, Settled(b, s, t, []))
    ensures pSection >= 0 ==> pSection + |Settled(b, s, t, [])| < e + 1
  {
    match s
    case Named(name) =>
      if pSection >= 0 {
        HeldBelow(was, pSection, name, data);
        StringStays(was, mid, pSection, name, data);
      }
    case Raw(at) =>
      SliceAgrees(b, was, at, at, t);
      assert b[at..t] + [] == b[at..t];
      CutString(was, mid, at, t);
  }

  lemma KeyComment(was: string, mid: string, data: int, comment: Option<string>, pComment: int)
    requires CommentHeld(was, data, comment, pComment) && 0 <= data < |was| && was[data] != NUL
    requires SameTo(was, mid, data) && Ended(mid)
    ensures CommentIs(mid, comment, pComment)
    ensures comment.Some? ==> pComment + |comment.value| < data
  {
    CommentStays(was, mid, data, comment, pComment);
    if comment.Some? {
      HeldBelow(was, pComment, comment.value, data);
    }
  }

  lemma KeyRead(f: Format, b: string, was: string, mid: string, p: int, section: string, data: int, s: SectionAt,
                pSection: int, comment: Option<string>, pComment: int, e: int, t: int)
    requires Finding(f, b, was, p, section, data, s, pSection, comment, pComment) && b[data] != NUL && !IsSpace(b[data])
    requires e == Scan(b, data, Equals) && e > data && t == TrimEnd(b, data, e) && mid == was[t := NUL]
    ensures KeyIs(b, mid, section, e + 1, Settled(b, s, t, []), pSection, comment, pComment, b[data..t], data) == true
  {
    TrimStopsAt(b, data, e, data);
    ScanPieceNoNul(b, data, Equals, t);
    SliceAgrees(b, was, data, data, t);
    CutString(was, mid, data, t);
    if s.Raw? {
      NoNulExtends(b, s.at, data, Equals);
      NoNulPrefix(b, s.at, e, t);
    }
    KeySection(b, was, mid, section, data, s, pSection, t, e);
    KeyComment(was, mid, data, comment, pComment);
  }

  lemma NoNulPrefix(b: string, at: int, e: int, t: int)
    requires 0 <= at <= t <= e <= |b| && NoNul(b[at..e])
    ensures NoNul(b[at..t])
  {
    var text := b[at..t];
    forall i | 0 <= i < |text| ensures text[i] != NUL {
      assert b[at..e][i] == text[i];
    }
  }

  lemma KeyStays(b: string, mid: string, now: string, section: string, limit: int, name: string, pSection: int,
                 comment: Option<string>, pComment: int, key: string, pKey: int)
    requires KeyIs(b, mid, section, limit, name, pSection, comment, pComment, key, pKey) && SameTo(mid, now, limit)
    requires Ended(now)
    ensures SectionIs(now, section, pSection, name) && CommentIs(now, comment, pComment) && CString(now, pKey) == key
  {
    StringStays(mid, now, pKey, key, limit);
    if pSection >= 0 {
      StringStays(mid, now, pSection, name, limit);
    }
    if comment.Some? {
      StringStays(mid, now, pComment, comment.value, limit);
    }
  }

  /** The value has been read, and the rest is as it was. */
  lemma KeyReturns(f: Format, b: string, was: string, mid: string, now: string, p: int, section: string, data: int,
                   s: SectionAt, pSection: int, comment: Option<string>, pComment: int, e: int, t: int, pVal: int,
                   next: int, r: Found)
    requires SameTo(b, was, p) && SameFrom(b, was, data) && Ended(b) && Ended(was) && 0 <= p <= data <= t <= e
    requires e + 1 < |b| && mid == was[t := NUL]
    requires s.Raw? ==> 0 <= s.at <= t
    requires KeyIs(b, mid, section, e + 1, Settled(b, s, t, []), pSection, comment, pComment, b[data..t], data)
    requires Value(f, mid, e) == Value(f, b, e) && RestOfText(f, mid, e) == RestOfText(f, b, e)
    requires ValueRead(f, mid, now, e, pVal, next)
    requires r == KeyFound(Settled(b, s, t, []), b[data..t], CString(now, pVal), comment, next)
    ensures Returns(b, now, p, section, r, next, pSection, data, pVal, pComment) == true
  {
    KeyStays(b, mid, now, section, e + 1, Settled(b, s, t, []), pSection, comment, pComment, b[data..t], data);
    KeyFrame(b, was, mid, now, p, data, t, e, next);
  }

  lemma KeyEnds(f: Format, b: string, mid: string, now: string, section: string, data: int, name: string, pSection: int,
                comment: Option<string>, pComment: int, e: int, key: string, pVal: int, next: int, r: Found)
    requires Ended(b) && 0 <= e && e + 1 < |b| == |mid|
    requires KeyIs(b, mid, section, e + 1, name, pSection, comment, pComment, key, data)
    requires Value(f, mid, e) == Value(f, b, e) && RestOfText(f, mid, e) == RestOfText(f, b, e)
    requires ValueRead(f, mid, now, e, pVal, next)
    requires r == KeyFound(name, key, CString(now, pVal), comment, next)
    ensures AllEnd(f, b, now, r, next, pSection, data, pVal, pComment) == true
  {
    KeyStays(b, mid, now, section, e + 1, name, pSection, comment, pComment, key, data);
  }

  /** A string that ends in the part that has been read stays what it is however reading goes on. */
  lemma Survives(now: string, later: string, ptr: int, data: int)
    requires EndsBy(now, ptr, data) && 0 <= data < |now| && now[data] != NUL && SameTo(now, later, data) && Ended(later)
    ensures CString(later, ptr) == CString(now, ptr) && EndsBy(later, ptr, data)
  {
    HeldStays(now, later, ptr, CString(now, ptr), data, data);
  }

  lemma RestAgrees(f: Format, b: string, c: string, e: int)
    requires Ended(b) && 0 <= e && e + 1 < |b| && SameFrom(b, c, e + 1)
    ensures Ended(c) && RestOfText(f, c, e) == RestOfText(f, b, e)
  {
    ScanAgrees(b, c, e + 1, NotBlank);
    var v := Scan(b, e + 1, NotBlank);
    ScanAgrees(b, c, v, LineEnd);
    var l := Scan(b, v, LineEnd);
    TrimSame(b, c, e + 1, v, l);
    var t := TrimEnd(b, v, l);
    SliceAgrees(b, c, e + 1, v, t);
    NewLineAgrees(b, c, l);
    if t - v >= 3 {
      SliceAgrees(b, c, e + 1, v + 3, t);
      FirstAgrees(b, c, if b[l] == NUL then l else AfterNewLine(b, l), b[v + 3..t], f.noCase);
    }
  }

  lemma FirstAgrees(b: string, c: string, p: int, tag: string, noCase: bool)
    requires Ended(b) && 0 <= p < |b| && SameFrom(b, c, p)
    ensures Ended(c) && FirstIsTag(c, p, tag, noCase) == FirstIsTag(b, p, tag, noCase)
  {
    ScanAgrees(b, c, p, LineEnd);
    var e := Scan(b, p, LineEnd);
    TagEndAgrees(b, c, p, e);
    SliceAgrees(b, c, p, p, e);
  }

  method ReadKey(f: Format, ghost b: string, buf: array<char>, ghost p: int, ghost section: string, data: int,
                 ghost s: SectionAt, ghost pSection: int, ghost comment: Option<string>, ghost pComment: int, e: int)
    returns (found: bool, pVal: int, next: int)
    requires Finding(f, b, buf[..], p, section, data, s, pSection, comment, pComment) == true
    requires Ended(b) && 0 <= data < |b| == buf.Length && !IsSpace(b[data]) && !IsComment(b[data]) && b[data] != '['
    requires b[data] != NUL
    requires e == Scan(b, data, Equals) && b[e] == '=' && e > data
    modifies buf
    ensures !found ==> NextEntry(f, b, p, Named(section), None) == NoMore
    ensures found ==>
      Returns(b, buf[..], p, section, NextEntry(f, b, p, Named(section), None), next, pSection, data, pVal, pComment)
        == true
    ensures found ==>
      AllEnd(f, b, buf[..], NextEntry(f, b, p, Named(section), None), next, pSection, data, pVal, pComment) == true
  {
    ghost var was := buf[..];
    TrimSame(b, was, data, data, e);
    var t := TrimTo(buf, data, e);
    buf[t] := NUL;
    ghost var mid := buf[..];
    KeyRead(f, b, was, mid, p, section, data, s, pSection, comment, pComment, e, t);
    assert SameFrom(b, mid, e + 1);
    ValueAgrees(f, b, mid, e);
    RestAgrees(f, b, mid, e);
    found, pVal, next := ReadValue(f, buf, e);
    KeyEntry(f, b, p, section, data, s, comment, e, t);
    if found {
      KeyReturns(f, b, was, mid, buf[..], p, section, data, s, pSection, comment, pComment, e, t, pVal, next,
                 NextEntry(f, b, p, Named(section), None));
      KeyEnds(f, b, mid, buf[..], section, data, Settled(b, s, t, []), pSection, comment, pComment, e, b[data..t],
              pVal, next,
              NextEntry(f, b, p, Named(section), None));
    }
  }

  /** The entry that a key makes. */
  lemma KeyEntry(f: Format, b: string, p: int, section: string, data: int, s: SectionAt, comment: Option<string>,
                 e: int, t: int)
    requires Ended(b) && 0 <= p <= data < |b| && (s.Raw? ==> 0 <= s.at <= data)
    requires NextEntry(f, b, p, Named(section), None) == NextEntry(f, b, data, s, comment)
    requires !IsSpace(b[data]) && !IsComment(b[data]) && b[data] != '[' && b[data] != NUL
    requires e == Scan(b, data, Equals) && b[e] == '=' && e > data && t == TrimEnd(b, data, e)
    ensures var r, v := NextEntry(f, b, p, Named(section), None), Value(f, b, e);
      if v.None? then r == NoMore else r == KeyFound(Settled(b, s, t, []), b[data..t], v.value.0, comment, v.value.1)
  {
    AtKey(f, b, data, s, comment, e);
  }

  lemma KeyFrame(b: string, was: string, mid: string, now: string, p: int, data: int, t: int, e: int, next: int)
    requires SameTo(b, was, p) && SameFrom(b, was, data) && 0 <= p <= data <= t <= e < next && t < |was|
    requires mid == was[t := NUL]
    requires SameTo(mid, now, e + 1) && SameFrom(mid, now, next)
    ensures SameTo(b, now, p) && SameFrom(b, now, next)
  {
  }

  lemma StartFinding(f: Format, b: string, p: int, section: string)
    requires Ended(b) && 0 <= p < |b|
    ensures Finding(f, b, b, p, section, p, Named(section), -1, None, -1)
  {
  }

  lemma AtEnd(f: Format, b: string, now: string, p: int, section: string, data: int, s: SectionAt, pSection: int,
              comment: Option<string>, pComment: int)
    requires Finding(f, b, now, p, section, data, s, pSection, comment, pComment) && b[data] == NUL
    ensures NextEntry(f, b, p, Named(section), None) == NoMore
  {
  }

  /** One turn of the loop, at a character that is not white space. */
  method Look(f: Format, ghost b: string, buf: array<char>, ghost p: int, ghost section: string, data: int,
              ghost s: SectionAt, pSection: int, ghost comment: Option<string>, pComment: int)
    returns (over: bool, found: bool, next: int, toSection: int, pKey: int, pVal: int, toComment: int,
             ghost t: SectionAt, ghost c: Option<string>)
    requires Finding(f, b, buf[..], p, section, data, s, pSection, comment, pComment) == true
    requires Ended(b) && 0 <= data < |b| == buf.Length && !IsSpace(b[data]) && b[data] != NUL && buf[data] == b[data]
    requires (s.Raw? ==> 0 <= s.at <= data) && SameFrom(b, buf[..], data)
    modifies buf
    ensures !over ==> Finding(f, b, buf[..], p, section, next, t, toSection, c, toComment) == true
    ensures !over ==> data < next
    ensures over && !found ==> NextEntry(f, b, p, Named(section), None) == NoMore
    ensures over && found ==>
      Returns(b, buf[..], p, section, NextEntry(f, b, p, Named(section), None), next, toSection, pKey, pVal, toComment)
        == true
    ensures over && found ==>
      AllEnd(f, b, buf[..], NextEntry(f, b, p, Named(section), None), next, toSection, pKey, pVal, toComment) == true
  {
    over, found, toSection, pKey, pVal, toComment, t, c := false, false, pSection, -1, -1, pComment, s, comment;
    ghost var was := buf[..];
    if IsComment(buf[data]) {
      t, c := Named(Settled(b, s, data, Comments(b, data, true).0)), Some(Comments(b, data, true).0);
      next := ReadComment(f, b, buf, p, section, data, s, pSection, comment, pComment);
      toComment := data;
    } else if buf[data] == '[' {
      ScanAgrees(b, was, data + 1, NotSpace);
      var n := ScanTo(buf, data + 1, NotSpace);
      ScanAgrees(b, was, n, Bracket);
      var e := ScanTo(buf, n, Bracket);
      toSection := n;
      if buf[e] != ']' {
        BadHeader(f, b, was, p, section, data, s, pSection, comment, pComment, n, e);
        next, t := e, Raw(n);
      } else {
        over, found := true, true;
        next := ReadHeader(f, b, buf, p, section, data, s, pSection, comment, pComment, n, e);
      }
    } else {
      ScanAgrees(b, was, data, Equals);
      var e := ScanTo(buf, data, Equals);
      if buf[e] == '=' && e > data {
        over, pKey := true, data;
        found, pVal, next := ReadKey(f, b, buf, p, section, data, s, pSection, comment, pComment, e);
      } else {
        NoValue(f, b, was, p, section, data, s, pSection, comment, pComment, e);
        next := e;
        if buf[e] == '=' {
          ScanAgrees(b, was, e, LineEnd);
          next := ScanTo(buf, e, LineEnd);
        }
      }
    }
  }

  /** FindEntry: looks from p on, in the section whose name is section. */
  method FindEntry(f: Format, buf: array<char>, p: int, ghost section: string)
    returns (found: bool, data: int, pSection: int, pKey: int, pVal: int, pComment: int)
    requires Ended(buf[..]) && 0 <= p < buf.Length
    modifies buf
    ensures found <==> !NextEntry(f, old(buf[..]), p, Named(section), None).NoMore?
    ensures found ==>
      Returns(old(buf[..]), buf[..], p, section, NextEntry(f, old(buf[..]), p, Named(section), None), data, pSection,
              pKey, pVal, pComment)
    ensures found ==>
      AllEnd(f, old(buf[..]), buf[..], NextEntry(f, old(buf[..]), p, Named(section), None), data, pSection, pKey, pVal,
             pComment)
  {
    ghost var b := buf[..];
    ghost var s, comment := Named(section), None;
    found, data, pSection, pKey, pVal, pComment := false, p, -1, -1, -1, -1;
    StartFinding(f, b, p, section);
    while true
      invariant Finding(f, b, buf[..], p, section, data, s, pSection, comment, pComment) == true
      decreases buf.Length - data
    {
      AfterSpace(f, b, buf[..], p, section, data, s, pSection, comment, pComment);
      ScanAgrees(b, buf[..], data, NotSpace);
      var q := ScanTo(buf, data, NotSpace);
      assert buf[q] == b[q];
      if buf[q] == NUL {
        AtEnd(f, b, buf[..], p, section, q, s, pSection, comment, pComment);
        found := false;
        return;
      }
      var over;
      ghost var t, c;
      over, found, data, pSection, pKey, pVal, pComment, t,
        c := Look(f, b, buf, p, section, q, s, pSection, comment, pComment);
      if over {
        return;
      }
      s, comment := t, c;
    }
  }

  // ------------------------------------------------------------------ only the unread text decides

  lemma HeaderAgrees(b: string, c: string, p: int, q: int, n: int, e: int)
    requires Ended(b) && 0 <= p <= q && q + 1 < |b| && SameFrom(b, c, p) && n == Scan(b, q + 1, NotSpace)
    requires e == Scan(b, n, Bracket)
    ensures Ended(c) && n == Scan(c, q + 1, NotSpace) && e == Scan(c, n, Bracket) && c[e] == b[e]
    ensures b[n..TrimEnd(b, n, e)] == c[n..TrimEnd(c, n, e)]
    ensures e + 1 < |b| ==> Scan(b, e + 1, LineEnd) == Scan(c, e + 1, LineEnd)
  {
    ScanAgrees(b, c, q + 1, NotSpace);
    ScanAgrees(b, c, n, Bracket);
    TrimSame(b, c, p, n, e);
    SliceAgrees(b, c, p, n, TrimEnd(b, n, e));
    if e + 1 < |b| {
      ScanAgrees(b, c, e + 1, LineEnd);
    }
  }

  lemma SettledAgrees(b: string, c: string, p: int, s: SectionAt, end: int, text: string)
    requires SameFrom(b, c, p) && 0 <= p <= end <= |b| && (s.Raw? ==> p <= s.at <= end)
    ensures Settled(b, s, end, text) == Settled(c, s, end, text)
  {
    if s.Raw? {
      SliceAgrees(b, c, p, s.at, end);
    }
  }

  lemma KeyAgrees(f: Format, b: string, c: string, p: int, q: int, s: SectionAt, comment: Option<string>)
    requires Ended(b) && 0 <= p <= q < |b| && SameFrom(b, c, p) && (s.Raw? ==> p <= s.at <= q)
    requires !IsSpace(b[q]) && !IsComment(b[q]) && b[q] != '[' && b[q] != NUL
    requires b[Scan(b, q, Equals)] == '=' && Scan(b, q, Equals) > q
    ensures Ended(c) && NextEntry(f, c, q, s, comment) == NextEntry(f, b, q, s, comment)
  {
    var e := Scan(b, q, Equals);
    ScanAgrees(b, c, q, Equals);
    TrimSame(b, c, p, q, e);
    var t := TrimEnd(b, q, e);
    SliceAgrees(b, c, p, q, t);
    ValueAgrees(f, b, c, e);
    SettledAgrees(b, c, p, s, t, []);
    AtKey(f, b, q, s, comment, e);
    AtKey(f, c, q, s, comment, e);
  }

  lemma ClosedAgrees(f: Format, b: string, c: string, p: int, q: int, s: SectionAt, comment: Option<string>, n: int,
                     e: int)
    requires Ended(b) && 0 <= p <= q < |b| && SameFrom(b, c, p) && (s.Raw? ==> 0 <= s.at <= q) && b[q] == '['
    requires n == Scan(b, q + 1, NotSpace) && e == Scan(b, n, Bracket) && b[e] == ']'
    ensures Ended(c) && NextEntry(f, c, q, s, comment) == NextEntry(f, b, q, s, comment)
  {
    HeaderAgrees(b, c, p, q, n, e);
    AtBracket(f, b, q, s, comment, n, e);
    AtBracket(f, c, q, s, comment, n, e);
  }

  /** Where the loop goes on from q, if it does. */
  function GoesOnAt(b: string, q: int, s: SectionAt,
                    comment: Option<string>): (r: Option<(int, SectionAt, Option<string>)>)
    requires Ended(b) && 0 <= q < |b| && (s.Raw? ==> 0 <= s.at <= q)
    ensures r.Some? && !IsSpace(b[q]) ==>
      q < r.value.0 < |b| && (r.value.1.Raw? ==> r.value.1 == s || q <= r.value.1.at <= r.value.0)
  {
    if b[q] == NUL || IsSpace(b[q]) then None
    else if IsComment(b[q]) then
      var k := Comments(b, q, true);
      Some((k.1, Named(Settled(b, s, q, k.0)), Some(k.0)))
    else if b[q] == '[' then
      var n := Scan(b, q + 1, NotSpace);
      var e := Scan(b, n, Bracket);
      if b[e] == ']' then None else Some((e, Raw(n), comment))
    else
      var e := Scan(b, q, Equals);
      if b[e] != '=' then Some((e, s, comment))
      else if e == q then Some((Scan(b, e, LineEnd), s, comment))
      else None
  }

  lemma GoesOn(f: Format, b: string, q: int, s: SectionAt, comment: Option<string>)
    requires Ended(b) && 0 <= q < |b| && (s.Raw? ==> 0 <= s.at <= q) && GoesOnAt(b, q, s, comment).Some?
    ensures var r := GoesOnAt(b, q, s, comment).value; NextEntry(f, b, q, s, comment) == NextEntry(f, b, r.0, r.1, r.2)
  {
    if IsComment(b[q]) {
      AtComment(f, b, q, s, comment);
    } else if b[q] == '[' {
      var n := Scan(b, q + 1, NotSpace);
      AtBracket(f, b, q, s, comment, n, Scan(b, n, Bracket));
    } else {
      AtKey(f, b, q, s, comment, Scan(b, q, Equals));
    }
  }

  lemma GoesOnAgrees(b: string, c: string, p: int, q: int, s: SectionAt, comment: Option<string>)
    requires Ended(b) && 0 <= p <= q < |b| && SameFrom(b, c, p) && (s.Raw? ==> p <= s.at <= q)
    ensures Ended(c) && GoesOnAt(c, q, s, comment) == GoesOnAt(b, q, s, comment)
  {
    assert b[q] == c[q];
    if IsComment(b[q]) {
      CommentsAgree(b, c, q, true);
      SettledAgrees(b, c, p, s, q, Comments(b, q, true).0);
    } else if b[q] == '[' {
      var n := Scan(b, q + 1, NotSpace);
      HeaderAgrees(b, c, p, q, n, Scan(b, n, Bracket));
    } else if b[q] != NUL {
      ScanAgrees(b, c, q, Equals);
      ScanAgrees(b, c, Scan(b, q, Equals), LineEnd);
    }
  }

  lemma StopsAgrees(f: Format, b: string, c: string, p: int, q: int, s: SectionAt, comment: Option<string>)
    requires Ended(b) && 0 <= p <= q < |b| && SameFrom(b, c, p) && (s.Raw? ==> p <= s.at <= q) && !IsSpace(b[q])
    requires GoesOnAt(b, q, s, comment).None?
    ensures Ended(c) && NextEntry(f, c, q, s, comment) == NextEntry(f, b, q, s, comment)
  {
    assert b[q] == c[q];
    if b[q] == '[' {
      var n := Scan(b, q + 1, NotSpace);
      ClosedAgrees(f, b, c, p, q, s, comment, n, Scan(b, n, Bracket));
    } else if b[q] != NUL {
      KeyAgrees(f, b, c, p, q, s, comment);
    }
  }

  lemma {:induction false} NextEntryAgrees(f: Format, b: string, c: string, p: int, d: int, s: SectionAt,
                                           comment: Option<string>)
    requires Ended(b) && 0 <= p <= d < |b| && SameFrom(b, c, p) && (s.Raw? ==> p <= s.at <= d)
    ensures Ended(c) && NextEntry(f, c, d, s, comment) == NextEntry(f, b, d, s, comment)
    decreases |b| - d
  {
    var q := Scan(b, d, NotSpace);
    ScanAgrees(b, c, d, NotSpace);
    SkipsSpace(f, b, d, s, comment);
    SkipsSpace(f, c, d, s, comment);
    GoesOnAgrees(b, c, p, q, s, comment);
    var r := GoesOnAt(b, q, s, comment);
    if r.None? {
      StopsAgrees(f, b, c, p, q, s, comment);
    } else {
      GoesOn(f, b, q, s, comment);
      GoesOn(f, c, q, s, comment);
      NextEntryAgrees(f, b, c, p, r.value.0, r.value.1, r.value.2);
    }
  }
}
