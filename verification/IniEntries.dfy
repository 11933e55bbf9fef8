/** Which headers and which keys with their values come back as they were written. A clause that says `P(..) == true`
    states P as one fact, which the verifier does not unfold there. */
module IniEntries {
  import opened Options
  import opened IniFormat
  import opened IniText
  import opened IniLoad
  import opened IniParse
  import opened IniPrint
  import opened IniValues

  predicate KeySafe(k: string) {
    && k != [] && !SpaceFirst(k) && !SpaceLast(k) && !IsComment(k[0]) && k[0] != '['
    && '=' !in k && '\n' !in k && '\r' !in k
  }

  predicate NameSafe(name: string) {
    !SpaceFirst(name) && !SpaceLast(name) && ']' !in name && '\n' !in name && '\r' !in name
  }

  // ------------------------------------------------------------------ whatever is read is safe

  lemma KeyReadSafe(b: string, q: int, e: int)
    requires Ended(b) && 0 <= q < |b| && e == Scan(b, q, Equals) && e > q
    requires !IsSpace(b[q]) && !IsComment(b[q]) && b[q] != '['
    ensures KeySafe(b[q..TrimEnd(b, q, e)])
  {
    var t := TrimEnd(b, q, e);
    TrimStopsAt(b, q, e, q);
    TrimmedLast(b, q, e);
    var k := b[q..t];
    assert k[0] == b[q] && k[|k| - 1] == b[t - 1];
    forall i | 0 <= i < |k| ensures k[i] != '=' && !IsNewLineChar(k[i]) {
      LineHasNoNul(b, q, Equals, q + i);
    }
  }

  lemma NameReadSafe(b: string, n: int, e: int)
    requires Ended(b) && 0 <= n < |b| && e == Scan(b, n, Bracket) && !IsSpace(b[n])
    ensures NameSafe(b[n..TrimEnd(b, n, e)])
  {
    var t := TrimEnd(b, n, e);
    TrimmedLast(b, n, e);
    var k := b[n..t];
    assert k != [] ==> k[0] == b[n] && k[|k| - 1] == b[t - 1];
    forall i | 0 <= i < |k| ensures k[i] != ']' && !IsNewLineChar(k[i]) {
      LineHasNoNul(b, n, Bracket, n + i);
    }
  }

  lemma {:induction false} ScanNotSpace(b: string, p: int)
    requires Ended(b) && 0 <= p < |b|
    ensures !IsSpace(b[Scan(b, p, NotSpace)])
  {
  }

  predicate FoundSafe(r: Found) {
    (r.KeyFound? ==> KeySafe(r.key)) && (r.SectionFound? ==> NameSafe(r.section))
  }

  /** FindEntry returns safe keys and safe names only. */
  lemma {:induction false} ReadIsSafe(f: Format, b: string, p: int, s: SectionAt, comment: Option<string>)
    requires Ended(b) && 0 <= p < |b| && (s.Raw? ==> 0 <= s.at <= p)
    ensures FoundSafe(NextEntry(f, b, p, s, comment)) == true
    decreases |b| - p
  {
    var q := Scan(b, p, NotSpace);
    ScanNotSpace(b, p);
    if b[q] == NUL {
    } else if IsComment(b[q]) {
      var c := Comments(b, q, true);
      ReadIsSafe(f, b, c.1, Named(Settled(b, s, q, c.0)), Some(c.0));
    } else if b[q] == '[' {
      var n := Scan(b, q + 1, NotSpace);
      var e := Scan(b, n, Bracket);
      ScanNotSpace(b, q + 1);
      if b[e] != ']' {
        ReadIsSafe(f, b, e, Raw(n), comment);
      } else {
        NameReadSafe(b, n, e);
      }
    } else {
      var e := Scan(b, q, Equals);
      if b[e] != '=' {
        ReadIsSafe(f, b, e, s, comment);
      } else if e == q {
        ReadIsSafe(f, b, Scan(b, e, LineEnd), s, comment);
      } else {
        KeyReadSafe(b, q, e);
      }
    }
  }

  // ------------------------------------------------------------------ a key line

  function KeyText(f: Format, k: string, v: string): string {
    k + (Separator(f) + (ValueText(f, v) + "\n"))
  }

  function EqualsAt(f: Format, p: int, k: string): int {
    if f.spaces then p + |k| + 1 else p + |k|
  }

  lemma KeyLineStands(f: Format, b: string, p: int, k: string, v: string, e: int)
    requires Ended(b) && At(b, p, KeyText(f, k, v)) && NoNul(v) && e == EqualsAt(f, p, k)
    ensures At(b, p, k) && Written(f, b, e, v) && (f.spaces ==> b[e - 1] == ' ')
  {
    AtParts(b, p, k, Separator(f) + (ValueText(f, v) + "\n"));
    AtParts(b, p + |k|, Separator(f), ValueText(f, v) + "\n");
    var sep := Separator(f);
    if f.spaces {
      assert b[p + |k|] == sep[0] && b[p + |k| + 1] == sep[1] && b[p + |k| + 2] == sep[2];
    } else {
      assert b[p + |k|] == sep[0];
    }
  }

  lemma KeyLineScans(b: string, p: int, k: string, e: int)
    requires Ended(b) && At(b, p, k) && KeySafe(k) && NoNul(k) && p + |k| <= e < |b| && b[e] == '='
    requires e <= p + |k| + 1 && (e == p + |k| + 1 ==> b[e - 1] == ' ')
    ensures Scan(b, p, Equals) == e && TrimEnd(b, p, e) == p + |k| && b[p..p + |k|] == k && b[p] == k[0]
  {
    assert b[p] == k[0] && b[p + |k| - 1] == k[|k| - 1];
    forall i | p <= i < e ensures !Stops(Equals, b[i]) {
      if i < p + |k| {
        assert b[i] == k[i - p];
      }
    }
    ScanOver(b, p, Equals, e);
    TrimExact(b, p, e, p + |k|);
    AtSlice(b, p, k);
  }

  /** With a safe key, what comes back depends on the value. */
  lemma KeyLineReads(f: Format, b: string, p: int, section: string, k: string, v: string, e: int)
    requires Ended(b) && At(b, p, KeyText(f, k, v)) && NoNul(v) && NoNul(k) && KeySafe(k) && e == EqualsAt(f, p, k)
    ensures Written(f, b, e, v)
    ensures Value(f, b, e).None? ==> NextEntry(f, b, p, Named(section), None) == NoMore
    ensures Value(f, b, e).Some? ==>
      NextEntry(f, b, p, Named(section), None)
        == KeyFound(section, k, Value(f, b, e).value.0, None, Value(f, b, e).value.1)
  {
    KeyLineStands(f, b, p, k, v, e);
    KeyLineScans(b, p, k, e);
    KeyAt(f, b, p, section, k, e);
  }

  lemma KeyAt(f: Format, b: string, p: int, section: string, k: string, e: int)
    requires Ended(b) && 0 <= p < |b| && e == Scan(b, p, Equals) && b[e] == '=' && e > p && e + 1 < |b|
    requires KeySafe(k) && TrimEnd(b, p, e) == p + |k| && b[p..p + |k|] == k && b[p] == k[0]
    ensures Value(f, b, e).None? ==> NextEntry(f, b, p, Named(section), None) == NoMore
    ensures Value(f, b, e).Some? ==>
      NextEntry(f, b, p, Named(section), None)
        == KeyFound(section, k, Value(f, b, e).value.0, None, Value(f, b, e).value.1)
  {
    assert !IsSpace(b[p]) && !IsComment(b[p]) && b[p] != '[' && b[p] != NUL;
  }

  /** A key and its value come back exactly if both are safe. */
  lemma KeyLineIffSafe(f: Format, b: string, p: int, section: string, k: string, v: string, next: int)
    requires Ended(b) && At(b, p, KeyText(f, k, v)) && NoNul(v) && NoNul(k) && next == p + |KeyText(f, k, v)| && p < |b|
    ensures NextEntry(f, b, p, Named(section), None) == KeyFound(section, k, v, None, next) <==>
      KeySafe(k) && ValueSafe(f, v)
  {
    ReadIsSafe(f, b, p, Named(section), None);
    if KeySafe(k) {
      var e := EqualsAt(f, p, k);
      KeyLineReads(f, b, p, section, k, v, e);
      ReadsBackIffSafe(f, b, e, v, next);
    }
  }

  // ------------------------------------------------------------------ a header

  lemma HeaderStands(b: string, p: int, name: string, n: int, e: int)
    requires Ended(b) && At(b, p, "[" + (name + "]\n")) && name != [] && n == p + 1 && e == n + |name|
    ensures At(b, n, name) && b[p] == '[' && b[n] == name[0] && b[e - 1] == name[|name| - 1]
    ensures e + 1 < |b| && b[e] == ']' && b[e + 1] == '\n'
  {
    AtParts(b, p, "[", name + "]\n");
    AtParts(b, n, name, "]\n");
    assert b[p] == "["[0] && b[e] == "]\n"[0] && b[e + 1] == "]\n"[1];
  }

  lemma NameScans(b: string, name: string, n: int, e: int)
    requires Ended(b) && At(b, n, name) && NameSafe(name) && name != [] && NoNul(name) && e == n + |name| < |b|
    requires b[e] == ']'
    requires b[n] == name[0] && b[e - 1] == name[|name| - 1]
    ensures Scan(b, n, NotSpace) == n && Scan(b, n, Bracket) == e && TrimEnd(b, n, e) == e && b[n..e] == name
  {
    ScanOver(b, n, NotSpace, n);
    forall i | n <= i < e ensures !Stops(Bracket, b[i]) {
      assert b[i] == name[i - n];
    }
    ScanOver(b, n, Bracket, e);
    TrimExact(b, n, e, e);
    AtSlice(b, n, name);
  }

  lemma AtHeader(f: Format, b: string, p: int, section: string, name: string, n: int, e: int, next: int)
    requires Ended(b) && 0 <= p && n == p + 1 <= e && next == e + 1 < |b| && b[p] == '['
    requires n == Scan(b, p + 1, NotSpace)
    requires e == Scan(b, n, Bracket) && b[e] == ']' && TrimEnd(b, n, e) == e && b[n..e] == name
    requires Scan(b, next, LineEnd) == next
    ensures NextEntry(f, b, p, Named(section), None) == SectionFound(name, None, next)
  {
    assert Scan(b, p, NotSpace) == p;
  }

  lemma HeaderReads(f: Format, b: string, p: int, section: string, name: string, next: int)
    requires Ended(b) && At(b, p, "[" + (name + "]\n")) && NameSafe(name) && name != [] && NoNul(name)
    requires next == p + |name| + 2
    ensures next < |b| && b[next] == '\n' && NextEntry(f, b, p, Named(section), None) == SectionFound(name, None, next)
  {
    var n, e := p + 1, next - 1;
    HeaderStands(b, p, name, n, e);
    NameScans(b, name, n, e);
    ScanOver(b, next, LineEnd, next);
    AtHeader(f, b, p, section, name, n, e, next);
  }

  /** A section name comes back exactly if it is safe. */
  lemma HeaderIffSafe(f: Format, b: string, p: int, section: string, name: string, next: int)
    requires Ended(b) && At(b, p, "[" + (name + "]\n")) && name != [] && NoNul(name) && next == p + |name| + 2
    requires p < |b|
    ensures NextEntry(f, b, p, Named(section), None) == SectionFound(name, None, next) <==> NameSafe(name)
  {
    ReadIsSafe(f, b, p, Named(section), None);
    if NameSafe(name) {
      HeaderReads(f, b, p, section, name, next);
    }
  }
}
