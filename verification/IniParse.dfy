/** FindEntry of SimpleIni.h as a function of the text. */
module IniParse {
  import opened Options
  import opened IniFormat
  import opened IniText

  /** Where the section pointer points: at a name, or at text that no NUL has ended yet. */
  datatype SectionAt = Named(name: string) | Raw(at: int)

  datatype Found =
    | SectionFound(section: string, comment: Option<string>, next: int)
    | KeyFound(section: string, key: string, value: string, comment: Option<string>, next: int)
    | NoMore

  /** The string at the section pointer, once a NUL has been written behind text, at end. */
  function Settled(b: string, s: SectionAt, end: int, text: string): string
    requires 0 <= end <= |b| && (s.Raw? ==> 0 <= s.at <= end)
  {
    if s.Raw? then b[s.at..end] + text else s.name
  }

  function Unquoted(f: Format, v: string): string {
    if f.parseQuotes && |v| >= 2 && v[0] == '"' && v[|v| - 1] == '"' then v[1..|v| - 1] else v
  }

  predicate IsMultiLineTag(v: string) {
    |v| >= 3 && v[0] == '<' && v[1] == '<' && v[2] == '<'
  }

  /** The value behind the '=' at e, and where reading goes on. */
  function Value(f: Format, b: string, e: int): (r: Option<(string, int)>)
    requires Ended(b) && 0 <= e && e + 1 < |b|
    ensures r.Some? ==> e < r.value.1 < |b|
  {
    var v := Scan(b, e + 1, NotBlank);
    var l := Scan(b, v, LineEnd);
    var t := TrimEnd(b, v, l);
    var n := if b[l] == NUL then l else AfterNewLine(b, l);
    if f.multiLine && IsMultiLineTag(b[v..t]) then MultiLine(b, n, b[v + 3..t], f.noCase)
    else Some((Unquoted(f, b[v..t]), n))
  }

  /** The next section or key from p on. */
  function NextEntry(f: Format, b: string, p: int, s: SectionAt, comment: Option<string>): (r: Found)
    requires Ended(b) && 0 <= p < |b| && (s.Raw? ==> 0 <= s.at <= p)
    ensures !r.NoMore? ==> p < r.next < |b|
    decreases |b| - p
  {
    var q := Scan(b, p, NotSpace);
    if b[q] == NUL then NoMore
    else if IsComment(b[q]) then
      var c := Comments(b, q, true);
      NextEntry(f, b, c.1, Named(Settled(b, s, q, c.0)), Some(c.0))
    else if b[q] == '[' then
      var n := Scan(b, q + 1, NotSpace);
      var e := Scan(b, n, Bracket);
      if b[e] != ']' then NextEntry(f, b, e, Raw(n), comment)
      else SectionFound(b[n..TrimEnd(b, n, e)], comment, Scan(b, e + 1, LineEnd))
    else
      var e := Scan(b, q, Equals);
      if b[e] != '=' then NextEntry(f, b, e, s, comment)
      else if e == q then NextEntry(f, b, Scan(b, e, LineEnd), s, comment)
      else
        var t := TrimEnd(b, q, e);
        var v := Value(f, b, e);
        if v.None? then NoMore
        else KeyFound(Settled(b, s, t, []), b[q..t], v.value.0, comment, v.value.1)
  }
}
