/** The end tag of a multi-line value: when white space behind it counts, and what comes of a tag on the first line. */
module IniTags {
  import opened Options
  import opened IniCompare
  import opened IniText
  import opened IniPrint
  import L = IniLoad

  // ------------------------------------------------------------------ white space behind the tag

  /** The lines up to the tag as they are meant to be read: white space behind the tag is always ignored. */
  function LinesIgnoring(b: string, p: int, tag: string, noCase: bool): (r: Block)
    requires Ended(b) && 0 <= p < |b|
    ensures r.Tagged? ==> p <= r.tag < |b|
    decreases |b| - p
  {
    var e := Scan(b, p, LineEnd);
    if Same(noCase, b[p..TrimEnd(b, p, e)], tag) then Tagged([], p, if b[e] == NUL then e else AfterNewLine(b, e))
    else if b[e] == NUL then Open(b[p..e], e)
    else
      var r := LinesIgnoring(b, AfterNewLine(b, e), tag, noCase);
      r.(text := b[p..e] + "\n" + r.text)
  }

  predicate HasCrlf(b: string, lo: int, hi: int) {
    exists i :: 0 <= lo <= i < hi && i + 1 < |b| && b[i] == '\r' && b[i + 1] == '\n'
  }

  /** White space stands at the end of the line. */
  predicate SpaceBehind(b: string, line: int)
    requires Ended(b) && 0 <= line < |b|
  {
    TrimEnd(b, line, Scan(b, line, LineEnd)) < Scan(b, line, LineEnd)
  }

  /** The white space hides the tag: it stands behind the tag, and a line before the tag has ended with CRLF, or the tag
      is empty: the first character of a line of white space is never taken away. */
  predicate Hidden(b: string, p: int, tag: string, shifted: bool, r: Block)
    requires Ended(b) && 0 <= p && (r.Tagged? ==> p <= r.tag < |b|)
  {
    r.Tagged? && (tag == [] || shifted || HasCrlf(b, p, r.tag)) && SpaceBehind(b, r.tag)
  }

  lemma SameLast(noCase: bool, s: string, t: string)
    requires Same(noCase, s, t)
    ensures SpaceLast(s) == SpaceLast(t)
  {
    SameIsFoldedEqual(noCase, s, t);
    FoldedLast(noCase, s);
    FoldedLast(noCase, t);
  }

  lemma {:induction false} FoldedLast(noCase: bool, s: string)
    ensures |Folded(noCase, s)| == |s| && (s != [] ==> SpaceLast(Folded(noCase, s)) == SpaceLast(s))
    decreases |s|
  {
    if s != [] {
      FoldedLast(noCase, s[1..]);
    }
  }

  /** A whole line that is the tag is the tag without its white space, because there is none. */
  lemma WholeLine(b: string, line: int, tag: string, noCase: bool)
    requires Ended(b) && 0 <= line < |b| && !SpaceLast(tag) && Same(noCase, b[line..Scan(b, line, LineEnd)], tag)
    ensures !SpaceBehind(b, line)
  {
    var e := Scan(b, line, LineEnd);
    SameLast(noCase, b[line..e], tag);
    if line < e {
      assert b[line..e][e - line - 1] == b[e - 1];
    }
  }

  lemma {:induction false} TrimFrom(b: string, p: int, e: int)
    requires 0 <= p < e <= |b|
    ensures TrimEnd(b, p, e) == TrimEnd(b, p + 1, e) || (TrimEnd(b, p, e) == p && TrimEnd(b, p + 1, e) == p + 1)
    decreases e
  {
    if p + 1 < e && IsSpace(b[e - 1]) {
      TrimFrom(b, p, e - 1);
    }
  }

  /** Where the comparison with the tag ends and where the white space begins are the same but for a line of white
      space, and then the comparison sees a first character that is white space. */
  lemma TwoEnds(b: string, p: int, e: int, tag: string, noCase: bool)
    requires 0 <= p <= e <= |b| && !SpaceLast(tag)
    ensures Same(noCase, b[p..TagEnd(b, p, e)], tag)
      <==> Same(noCase, b[p..TrimEnd(b, p, e)], tag) && (tag == [] ==> TrimEnd(b, p, e) == e)
  {
    if p < e {
      TrimFrom(b, p, e);
    }
    if Same(noCase, b[p..TagEnd(b, p, e)], tag) { SameLast(noCase, b[p..TagEnd(b, p, e)], tag); }
    if Same(noCase, b[p..TrimEnd(b, p, e)], tag) { SameLast(noCase, b[p..TrimEnd(b, p, e)], tag); }
  }

  lemma CrlfFrom(b: string, p: int, e: int, q: int, hi: int)
    requires Ended(b) && 0 <= p < |b| && e == Scan(b, p, LineEnd) && b[e] != NUL && q == AfterNewLine(b, e)
    requires q <= hi < |b|
    ensures HasCrlf(b, p, hi) <==> q == e + 2 || HasCrlf(b, q, hi)
  {
    if HasCrlf(b, p, hi) {
      var i :| p <= i < hi && i + 1 < |b| && b[i] == '\r' && b[i + 1] == '\n';
      if i < e {
        L.LineHasNoNul(b, p, LineEnd, i);
      }
    }
    if q == e + 2 {
      assert b[e] == '\r' && b[e + 1] == '\n';
    }
  }

  lemma SamePrefix(pre: string, x: Block, y: Block)
    ensures x.(text := pre + x.text) == y.(text := pre + y.text) <==> x == y
  {
    if pre + x.text == pre + y.text {
      assert (pre + x.text)[|pre|..] == x.text && (pre + y.text)[|pre|..] == y.text;
    }
  }

  /** White space behind the end tag is ignored, as the program means to, if and only if it does not hide the tag. */
  lemma {:induction false} IgnoredUnlessHidden(b: string, p: int, tag: string, noCase: bool, shifted: bool)
    requires Ended(b) && 0 <= p < |b| && !SpaceLast(tag)
    ensures Lines(b, p, tag, noCase, shifted) == LinesIgnoring(b, p, tag, noCase)
      <==> !Hidden(b, p, tag, shifted, LinesIgnoring(b, p, tag, noCase))
    decreases |b| - p
  {
    var e := Scan(b, p, LineEnd);
    if Same(noCase, b[p..e], tag) {
      WholeLine(b, p, tag, noCase);
    }
    TwoEnds(b, p, e, tag, noCase);
    if !Same(noCase, b[p..TrimEnd(b, p, e)], tag) && b[e] != NUL {
      var q := AfterNewLine(b, e);
      var r := LinesIgnoring(b, q, tag, noCase);
      IgnoredUnlessHidden(b, q, tag, noCase, shifted || q == e + 2);
      SamePrefix(b[p..e] + "\n", Lines(b, q, tag, noCase, shifted || q == e + 2), r);
      if r.Tagged? {
        CrlfFrom(b, p, e, q, r.tag);
      }
    }
  }

  lemma HiddenLines(b: string, noCase: bool)
    requires b == "x\r\nT \n\0"
    ensures Lines(b, 3, "T", noCase, true) == Open("T \n", 6)
  {
    NotTheTag(noCase);
    assert Scan(b, 4, LineEnd) == 5 && Scan(b, 3, LineEnd) == 5 && b[3..5] == "T ";
    assert Scan(b, 6, LineEnd) == 6 && b[6..6] == "" && TagEnd(b, 6, 6) == 6;
    assert Lines(b, 6, "T", noCase, true) == Open("", 6);
  }

  lemma SeenLines(b: string, noCase: bool)
    requires b == "x\nT \n\0"
    ensures Lines(b, 2, "T", noCase, false) == Tagged("", 2, 5)
  {
    NotTheTag(noCase);
    assert Scan(b, 3, LineEnd) == 4 && Scan(b, 2, LineEnd) == 4;
    assert TrimEnd(b, 3, 3) == 3 && TrimEnd(b, 3, 4) == 3 && b[2..3] == "T";
  }

  lemma HiddenValue(b: string, noCase: bool)
    requires b == "x\r\nT \n\0"
    ensures MultiLine(b, 0, "T", noCase) == Some(("x\nT \n", 6))
  {
    HiddenLines(b, noCase);
    FirstLineX(b, 3, noCase);
    Joined("x", "T \n");
    OpenValue(b, 0, "T", noCase, "x\nT \n", 6);
  }

  lemma SeenValue(b: string, noCase: bool)
    requires b == "x\nT \n\0"
    ensures MultiLine(b, 0, "T", noCase) == Some(("x", 5))
  {
    SeenLines(b, noCase);
    FirstLineX(b, 2, noCase);
    Joined("x", "");
    L.MultiLineTagged(b, 0, "T", noCase, "x\n", 2, 5);
  }

  lemma Joined(s: string, t: string)
    ensures s + "\n" + t == s + ("\n" + t)
  {
  }

  lemma OpenValue(b: string, p: int, tag: string, noCase: bool, text: string, next: int)
    requires Ended(b) && 0 <= p < |b| && Lines(b, p, tag, noCase, false) == Open(text, next)
    ensures MultiLine(b, p, tag, noCase) == Some((text, next))
  {
  }

  /** A block where it is hidden, and the same block without the CR. */
  lemma HiddenText(noCase: bool)
    ensures MultiLine("x\r\nT \n\0", 0, "T", noCase) == Some(("x\nT \n", 6))
    ensures MultiLine("x\nT \n\0", 0, "T", noCase) == Some(("x", 5))
  {
    HiddenValue("x\r\nT \n\0", noCase);
    SeenValue("x\nT \n\0", noCase);
  }

  lemma FirstLineX(b: string, q: int, noCase: bool)
    requires Ended(b) && |b| > 3 && b[0] == 'x' && IsNewLineChar(b[1]) && q == AfterNewLine(b, 1)
    ensures var r := Lines(b, q, "T", noCase, q == 3);
      Lines(b, 0, "T", noCase, false) == r.(text := "x" + "\n" + r.text)
  {
    NotTheTag(noCase);
    assert Scan(b, 0, LineEnd) == 1 && b[0..1] == "x" && TagEnd(b, 0, 1) == 1;
  }

  lemma BlankLines(b: string, noCase: bool)
    requires b == "x\n \n\0"
    ensures Lines(b, 2, "", noCase, false) == Tagged(" \n", 4, 4)
  {
    NotTheTag(noCase);
    assert Scan(b, 3, LineEnd) == 3 && Scan(b, 2, LineEnd) == 3 && b[2..3] == " ";
    assert Scan(b, 4, LineEnd) == 4 && b[4..4] == "";
    assert Lines(b, 4, "", noCase, false) == Tagged("", 4, 4);
  }

  lemma EmptyLine(b: string, noCase: bool)
    requires b == "x\n\n\0"
    ensures Lines(b, 2, "", noCase, false) == Tagged("", 2, 3)
  {
    NotTheTag(noCase);
    assert Scan(b, 2, LineEnd) == 2 && b[2..2] == "";
  }

  lemma FirstLineBefore(b: string, noCase: bool)
    requires Ended(b) && |b| > 3 && b[0] == 'x' && b[1] == '\n'
    ensures var r := Lines(b, 2, "", noCase, false); Lines(b, 0, "", noCase, false) == r.(text := "x\n" + r.text)
  {
    NotTheTag(noCase);
    assert Scan(b, 0, LineEnd) == 1 && b[0..1] == "x" && "x" + "\n" == "x\n";
  }

  lemma BeforeLast(text: string, line: string)
    requires text == line + "\n"
    ensures text != [] && text[..|text| - 1] == line
  {
  }

  lemma BlankValue(b: string, noCase: bool)
    requires b == "x\n \n\0"
    ensures MultiLine(b, 0, "", noCase) == Some(("x\n ", 4))
  {
    BlankLines(b, noCase);
    FirstLineBefore(b, noCase);
    assert "x\n" + " \n" == "x\n \n";
    BeforeLast("x\n \n", "x\n ");
    L.MultiLineTagged(b, 0, "", noCase, "x\n \n", 4, 4);
  }

  lemma EmptyValue(b: string, noCase: bool)
    requires b == "x\n\n\0"
    ensures MultiLine(b, 0, "", noCase) == Some(("x", 3))
  {
    EmptyLine(b, noCase);
    FirstLineBefore(b, noCase);
    assert "x\n" + "" == "x\n";
    BeforeLast("x\n", "x");
    L.MultiLineTagged(b, 0, "", noCase, "x\n", 2, 3);
  }

  /** A block with an empty tag and no CRLF where it is hidden, and the same block without the white space. */
  lemma HiddenEmptyTag(noCase: bool)
    ensures MultiLine("x\n \n\0", 0, "", noCase) == Some(("x\n ", 4))
    ensures MultiLine("x\n\n\0", 0, "", noCase) == Some(("x", 3))
  {
    BlankValue("x\n \n\0", noCase);
    EmptyValue("x\n\n\0", noCase);
  }

  lemma NotTheTag(noCase: bool)
    ensures !Same(noCase, "x", "T") && !Same(noCase, "T ", "T") && !Same(noCase, "", "T") && Same(noCase, "T", "T")
    ensures !Same(noCase, "x", "") && !Same(noCase, " ", "") && Same(noCase, "", "")
  {
    SameIsFoldedEqual(noCase, "x", "");
    SameIsFoldedEqual(noCase, " ", "");
    SameIsFoldedEqual(noCase, "", "");
    SameIsFoldedEqual(noCase, "x", "T");
    SameIsFoldedEqual(noCase, "T ", "T");
    SameIsFoldedEqual(noCase, "", "T");
    SameIsFoldedEqual(noCase, "T", "T");
    assert "x"[1..] == "" && "T"[1..] == "" && "T "[1..] == " ";
  }

  // ------------------------------------------------------------------ a tag on the first line

  /** The value that stands before the tag: the lines without the newline of the last one. */
  function Before(text: string): string {
    if text == [] then [] else text[..|text| - 1]
  }

  /** The value is what stands before its end tag if and only if something does: the tag is not the first line. */
  lemma BeforeTagUnlessFirst(b: string, p: int, tag: string, noCase: bool)
    requires Ended(b) && 0 <= p < |b| && Lines(b, p, tag, noCase, false).Tagged?
    ensures var r := Lines(b, p, tag, noCase, false);
      var firstLine := b[p..TagEnd(b, p, Scan(b, p, LineEnd))];
      MultiLine(b, p, tag, noCase) == Some((Before(r.text), r.next)) <==> !Same(noCase, firstLine, tag)
  {
    var e := Scan(b, p, LineEnd);
    if p < e {
      assert TagEnd(b, p, e) >= p + 1;
      assert !Stops(LineEnd, b[p]);
      assert CString(b, p) != [] && b[p..TagEnd(b, p, e)] != [];
    }
  }

  /** Blocks where it is: the value is all the rest of the text, or the tag, or there is none. */
  lemma FirstLineText(noCase: bool)
    ensures MultiLine("T\nv\n\0", 0, "T", noCase) == Some(("T\nv\n", 2))
    ensures MultiLine("T \nv\n\0", 0, "T", noCase) == Some(("T", 3))
    ensures MultiLine("\nv\n\0", 0, "", noCase) == None
  {
    var b, c, d := "T\nv\n\0", "T \nv\n\0", "\nv\n\0";
    NotTheTag(noCase);
    SameIsFoldedEqual(noCase, "", "");
    assert Scan(b, 0, LineEnd) == 1 && TrimEnd(b, 1, 1) == 1 && b[0..1] == "T";
    assert CString(b, 3) == "\n" && CString(b, 2) == "v\n" && CString(b, 1) == "\nv\n" && CString(b, 0) == "T\nv\n";
    assert Scan(c, 1, LineEnd) == 2 && Scan(c, 0, LineEnd) == 2 && TrimEnd(c, 1, 1) == 1 && TrimEnd(c, 1, 2) == 1
      && c[0..1] == "T";
    assert d[0..0] == "" && Scan(d, 0, LineEnd) == 0;
  }
}
