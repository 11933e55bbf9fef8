/** How SimpleIni.h reads text: scanning a buffer that ends with a NUL, comment blocks and multi-line values. */
module IniText {
  import opened Options
  import opened IniCompare

  const NUL: char := '\0'

  predicate IsSpace(ch: char) {
    ch == ' ' || ch == '\t' || ch == '\r' || ch == '\n'
  }

  predicate IsComment(ch: char) {
    ch == ';' || ch == '#'
  }

  predicate IsNewLineChar(ch: char) {
    ch == '\n' || ch == '\r'
  }

  /** Where a scan stops. */
  datatype Until = LineEnd | Bracket | Equals | NotSpace | NotBlank

  predicate Stops(u: Until, ch: char) {
    ch == NUL || match u
      case LineEnd => IsNewLineChar(ch)
      case Bracket => ch == ']' || IsNewLineChar(ch)
      case Equals => ch == '=' || IsNewLineChar(ch)
      case NotSpace => !IsSpace(ch)
      case NotBlank => !IsSpace(ch) || IsNewLineChar(ch)
  }

  predicate Ended(b: string) {
    b != [] && b[|b| - 1] == NUL
  }

  /** The first place from p on where the scan stops. */
  function Scan(b: string, p: int, u: Until): (r: int)
    requires Ended(b) && 0 <= p < |b|
    ensures p <= r < |b| && Stops(u, b[r])
    decreases |b| - p
  {
    if Stops(u, b[p]) then p else Scan(b, p + 1, u)
  }

  lemma {:induction false} ScanIsFirst(b: string, p: int, u: Until)
    requires Ended(b) && 0 <= p < |b|
    ensures forall i :: p <= i < Scan(b, p, u) ==> !Stops(u, b[i])
    decreases |b| - p
  {
    if !Stops(u, b[p]) {
      ScanIsFirst(b, p + 1, u);
    }
  }

  /** The end of b[lo..hi] without its trailing white space. */
  function TrimEnd(b: string, lo: int, hi: int): (r: int)
    requires 0 <= lo <= hi <= |b|
    ensures lo <= r <= hi
    decreases hi - lo
  {
    if hi > lo && IsSpace(b[hi - 1]) then TrimEnd(b, lo, hi - 1) else hi
  }

  function AfterNewLine(b: string, p: int): (r: int)
    requires Ended(b) && 0 <= p < |b| && IsNewLineChar(b[p])
    ensures p < r < |b|
  {
    if b[p] == '\r' && b[p + 1] == '\n' then p + 2 else p + 1
  }

  // ------------------------------------------------------------------ comment blocks

  /** Past white space: the number of newlines and the place. */
  function SkipBlank(b: string, p: int, newLines: int): (r: (int, int))
    requires Ended(b) && 0 <= p < |b| && newLines >= 0
    ensures p <= r.1 < |b| && newLines <= r.0 && r.0 - newLines <= r.1 - p
    ensures !IsSpace(b[r.1])
    decreases |b| - p
  {
    if !IsSpace(b[p]) then (newLines, p)
    else if IsNewLineChar(b[p]) then SkipBlank(b, AfterNewLine(b, p), newLines + 1)
    else SkipBlank(b, p + 1, newLines)
  }

  function NewLines(n: int): (r: string)
    requires n >= 0
    ensures |r| == n
  {
    if n == 0 then [] else NewLines(n - 1) + "\n"
  }

  /** The comment block at p, where a comment line stands: its text and where reading goes on. */
  function Comments(b: string, p: int, blank: bool): (r: (string, int))
    requires Ended(b) && 0 <= p < |b| && IsComment(b[p])
    ensures p < r.1 < |b| && |r.0| <= r.1 - p
    decreases |b| - p
  {
    var e := Scan(b, p, LineEnd);
    if b[e] == NUL then (b[p..e], e)
    else
      var q := AfterNewLine(b, e);
      if IsComment(b[q]) then
        var r := Comments(b, q, blank);
        (b[p..e] + "\n" + r.0, r.1)
      else
        var s := SkipBlank(b, q, 0);
        if blank && IsComment(b[s.1]) then
          var r := Comments(b, s.1, blank);
          (b[p..e] + "\n" + NewLines(s.0) + r.0, r.1)
        else (b[p..e], q)
  }

  // ------------------------------------------------------------------ multi-line values

  /** The line without the white space after the tag. If nothing but white space is there, its first character stays. */
  function TagEnd(b: string, p: int, e: int): (r: int)
    requires 0 <= p <= e <= |b|
    ensures p <= r <= e
  {
    if p < e then TrimEnd(b, p + 1, e) else e
  }

  /** text: the lines before the tag, each with one newline. */
  datatype Block = Tagged(text: string, tag: int, next: int) | Open(text: string, next: int)

  /** The lines from p on up to the tag. Once a CRLF has been shortened (shifted), lines are moved before they are
      compared, and white space after the tag is no longer ignored. */
  function Lines(b: string, p: int, tag: string, noCase: bool, shifted: bool): (r: Block)
    requires Ended(b) && 0 <= p < |b|
    ensures p <= r.next < |b|
    ensures r.Tagged? ==> p + |r.text| <= r.tag <= r.next
    ensures r.Open? ==> p + |r.text| <= r.next && b[r.next] == NUL
    decreases |b| - p
  {
    var e := Scan(b, p, LineEnd);
    if Same(noCase, if shifted then b[p..e] else b[p..TagEnd(b, p, e)], tag) then
      Tagged([], p, if b[e] == NUL then e else AfterNewLine(b, e))
    else if b[e] == NUL then Open(b[p..e], e)
    else
      var q := AfterNewLine(b, e);
      var r := Lines(b, q, tag, noCase, shifted || q == e + 2);
      r.(text := b[p..e] + "\n" + r.text)
  }

  /** What the string that starts at p is, up to the next NUL. */
  function CString(b: string, p: int): (r: string)
    requires Ended(b) && 0 <= p < |b|
    ensures p + |r| < |b|
    decreases |b| - p
  {
    if b[p] == NUL then [] else [b[p]] + CString(b, p + 1)
  }

  /** The multi-line value that starts at p, and where reading goes on; nothing if LoadMultiLineText gives up. A tag
      on the very first line makes the value the tag itself, and without white space after the tag all the rest of the
      text. */
  function MultiLine(b: string, p: int, tag: string, noCase: bool): (r: Option<(string, int)>)
    requires Ended(b) && 0 <= p < |b|
    ensures r.Some? ==> p <= r.value.1 < |b|
  {
    var l := Lines(b, p, tag, noCase, false);
    if l.Open? then Some((l.text, l.next))
    else if l.text != [] then Some((l.text[..|l.text| - 1], l.next))
    else
      var e := Scan(b, p, LineEnd);
      if e == p then None
      else if TagEnd(b, p, e) < e then Some((b[p..TagEnd(b, p, e)], l.next))
      else Some((CString(b, p), l.next))
  }
}
