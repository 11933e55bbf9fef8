/** CSimpleIniTempl of SimpleIni.h as the program keeps it. A clause that says `P(..) == true` states P as one fact,
    which the verifier does not unfold there. */
module SimpleInis {
  import opened Options
  import opened IniCompare
  import opened IniFormat
  import opened IniStore
  import opened IniText
  import opened IniPrint
  import opened IniContent
  import D = IniDocument
  import F = IniFind
  import L = IniLoad
  import P = IniParse
  import S = IniSections

  // ------------------------------------------------------------------ loops over the entries of one name

  /** The place behind the entries of that name, found as the loops find it. */
  lemma RunEnds(noCase: bool, m: KeyVal, name: string, j: nat)
    requires Sorted(noCase, m) && Find(noCase, m, name) <= j < |m| && Find(noCase, m, name) < |m|
    ensures Less(noCase, name, m[j].entry.item) <==> j >= Upper(noCase, m, name)
  {
    RunNotEmpty(noCase, m, name);
    if j < Upper(noCase, m, name) {
      RunIsSame(noCase, m, name, j);
    } else {
      AboveStaysAbove(noCase, m, name, j);
    }
  }

  lemma WithoutAbove(noCase: bool, m: KeyVal, key: string, value: Option<string>)
    requires Sorted(noCase, m)
    ensures var u := Upper(noCase, m, key); Without(noCase, m[u..], key, value) == m[u..]
  {
    var u := Upper(noCase, m, key);
    forall i | 0 <= i < |m[u..]| ensures !Same(noCase, m[u..][i].entry.item, key) {
      AboveStaysAbove(noCase, m, key, u + i);
    }
    WithoutNone(noCase, m[u..], key, value);
  }

  lemma WithoutSlices(noCase: bool, m: KeyVal, key: string, value: Option<string>, k: nat, u: nat)
    requires k <= u <= |m|
    ensures Without(noCase, m, key, value)
      == Without(noCase, m[..k], key, value) + Without(noCase, m[k..u], key, value)
        + Without(noCase, m[u..], key, value)
  {
    WithoutConcat(noCase, m[..k], m[k..u], key, value);
    assert m[..u] == m[..k] + m[k..u];
    WithoutConcat(noCase, m[..u], m[u..], key, value);
    assert m == m[..u] + m[u..];
  }

  lemma WithoutRun(noCase: bool, m: KeyVal, key: string, value: Option<string>)
    requires Sorted(noCase, m) && Find(noCase, m, key) < |m|
    ensures var k, u := Find(noCase, m, key), Upper(noCase, m, key);
            k < u && Without(noCase, m, key, value) == m[..k] + Without(noCase, m[k..u], key, value) + m[u..]
  {
    var k, u := Find(noCase, m, key), Upper(noCase, m, key);
    RunNotEmpty(noCase, m, key);
    WithoutNone(noCase, m[..k], key, value);
    WithoutAbove(noCase, m, key, value);
    WithoutSlices(noCase, m, key, value, k, u);
  }

  lemma WithoutNext(noCase: bool, m: KeyVal, key: string, value: Option<string>, k: nat, r: nat)
    requires k <= r < |m|
    ensures Without(noCase, m[k..r + 1], key, value)
         == Without(noCase, m[k..r], key, value) + (if Doomed(noCase, m[r], key, value) then [] else [m[r]])
  {
    assert m[k..r + 1] == m[k..r] + [m[r]];
    WithoutConcat(noCase, m[k..r], [m[r]], key, value);
  }

  /** How far an erasing loop has come: kept is what is left of the run from k to r. */
  ghost predicate Erasing(noCase: bool, m: KeyVal, key: string, value: Option<string>, left: KeyVal, k: nat, r: nat,
                          kept: KeyVal, j: nat) {
    && k == Find(noCase, m, key) && k <= r <= Upper(noCase, m, key) <= |m|
      && kept == Without(noCase, m[k..r], key, value)
    && left == m[..k] + kept + m[r..] && j == k + |kept|
  }

  lemma ErasingAt(noCase: bool, m: KeyVal, key: string, value: Option<string>, left: KeyVal, k: nat, r: nat,
                  kept: KeyVal, j: nat)
    requires Sorted(noCase, m) && k < |m| && Erasing(noCase, m, key, value, left, k, r, kept, j)
    ensures j <= |left| && (j < |left| <==> r < |m|) && (j < |left| ==> left[j] == m[r])
    ensures (j < |left| && !Less(noCase, key, left[j].entry.item)) <==> r < Upper(noCase, m, key)
  {
    if r < |m| {
      RunEnds(noCase, m, key, r);
    }
  }

  lemma ErasingStarts(noCase: bool, m: KeyVal, key: string, value: Option<string>)
    requires Sorted(noCase, m) && Find(noCase, m, key) < |m|
    ensures Erasing(noCase, m, key, value, m, Find(noCase, m, key), Find(noCase, m, key), [], Find(noCase, m, key))
  {
    var k := Find(noCase, m, key);
    RunNotEmpty(noCase, m, key);
    assert m[k..k] == [] && m == m[..k] + [] + m[k..];
  }

  lemma CutOne(a: KeyVal, kept: KeyVal, rest: KeyVal, left: KeyVal, j: nat)
    requires rest != [] && left == a + kept + rest && j == |a| + |kept|
    ensures j < |left| && left[j] == rest[0]
    ensures left[..j] + left[j + 1..] == a + kept + rest[1..] && left == a + (kept + [rest[0]]) + rest[1..]
  {
    assert left[..j] == a + kept;
    assert left[j + 1..] == rest[1..];
  }

  lemma Erases(noCase: bool, m: KeyVal, key: string, value: Option<string>, left: KeyVal, k: nat, r: nat, kept: KeyVal,
               j: nat)
    requires Sorted(noCase, m) && k < |m| && Erasing(noCase, m, key, value, left, k, r, kept, j)
    requires r < Upper(noCase, m, key)
    requires j < |left| && (value.None? || Same(noCase, left[j].value, value.value))
    ensures Erasing(noCase, m, key, value, left[..j] + left[j + 1..], k, r + 1, kept, j) == true
  {
    CutOne(m[..k], kept, m[r..], left, j);
    assert m[r..][1..] == m[r + 1..] && m[r..][0] == m[r];
    WithoutNext(noCase, m, key, value, k, r);
    RunIsSame(noCase, m, key, r);
  }

  lemma Keeps(noCase: bool, m: KeyVal, key: string, value: Option<string>, left: KeyVal, k: nat, r: nat, kept: KeyVal,
              j: nat)
    requires Sorted(noCase, m) && k < |m| && Erasing(noCase, m, key, value, left, k, r, kept, j)
    requires r < Upper(noCase, m, key)
    requires j < |left| && value.Some? && !Same(noCase, left[j].value, value.value)
    ensures Erasing(noCase, m, key, value, left, k, r + 1, kept + [left[j]], j + 1) == true
  {
    CutOne(m[..k], kept, m[r..], left, j);
    assert m[r..][1..] == m[r + 1..] && m[r..][0] == m[r];
    WithoutNext(noCase, m, key, value, k, r);
  }

  /** Where the erasing loop stands, and whether it goes on. */
  ghost predicate ErasingOn(noCase: bool, m: KeyVal, key: string, value: Option<string>, left: KeyVal, k: nat, r: nat,
                            kept: KeyVal, j: nat) {
    && k < |m| && Erasing(noCase, m, key, value, left, k, r, kept, j) && j <= |left| <= |m|
    && ((j < |left| && !Less(noCase, key, left[j].entry.item)) <==> r < Upper(noCase, m, key))
  }

  lemma GoesOn(noCase: bool, m: KeyVal, key: string, value: Option<string>, left: KeyVal, k: nat, r: nat, kept: KeyVal,
               j: nat)
    requires Sorted(noCase, m) && k < |m| && Erasing(noCase, m, key, value, left, k, r, kept, j) && |left| <= |m|
    ensures ErasingOn(noCase, m, key, value, left, k, r, kept, j) == true
  {
    ErasingAt(noCase, m, key, value, left, k, r, kept, j);
  }

  lemma RunErased(noCase: bool, m: KeyVal, key: string, value: Option<string>, left: KeyVal, k: nat, r: nat,
                  kept: KeyVal, j: nat)
    requires Sorted(noCase, m) && ErasingOn(noCase, m, key, value, left, k, r, kept, j)
    requires !(j < |left| && !Less(noCase, key, left[j].entry.item))
    ensures left == Without(noCase, m, key, value)
  {
    WithoutRun(noCase, m, key, value);
  }

  /** What the erasing loop leaves when it goes on from j. */
  function EraseFrom(noCase: bool, left: KeyVal, key: string, value: Option<string>, j: nat): KeyVal
    requires j <= |left|
    decreases |left| - j
  {
    if j == |left| || Less(noCase, key, left[j].entry.item) then left
    else if value.None? || Same(noCase, left[j].value, value.value) then
      EraseFrom(noCase, left[..j] + left[j + 1..], key, value, j)
    else EraseFrom(noCase, left, key, value, j + 1)
  }

  lemma {:induction false} EraseFromIs(noCase: bool, m: KeyVal, key: string, value: Option<string>, left: KeyVal,
                                       k: nat, r: nat, kept: KeyVal, j: nat)
    requires Sorted(noCase, m) == true && ErasingOn(noCase, m, key, value, left, k, r, kept, j) == true && j <= |left|
    ensures EraseFrom(noCase, left, key, value, j) == Without(noCase, m, key, value)
    decreases |left| - j
  {
    if j == |left| || Less(noCase, key, left[j].entry.item) {
      RunErased(noCase, m, key, value, left, k, r, kept, j);
    } else if value.None? || Same(noCase, left[j].value, value.value) {
      var next := left[..j] + left[j + 1..];
      ErasesOn(noCase, m, key, value, left, k, r, kept, j, next);
      EraseFromIs(noCase, m, key, value, next, k, r + 1, kept, j);
    } else {
      KeepsOn(noCase, m, key, value, left, k, r, kept, j);
      EraseFromIs(noCase, m, key, value, left, k, r + 1, kept + [left[j]], j + 1);
    }
  }

  lemma ErasesOn(noCase: bool, m: KeyVal, key: string, value: Option<string>, left: KeyVal, k: nat, r: nat,
                 kept: KeyVal, j: nat, next: KeyVal)
    requires Sorted(noCase, m) && ErasingOn(noCase, m, key, value, left, k, r, kept, j)
    requires j < |left| && !Less(noCase, key, left[j].entry.item) && next == left[..j] + left[j + 1..]
    requires value.None? || Same(noCase, left[j].value, value.value)
    ensures ErasingOn(noCase, m, key, value, next, k, r + 1, kept, j) == true
  {
    Erases(noCase, m, key, value, left, k, r, kept, j);
    GoesOn(noCase, m, key, value, next, k, r + 1, kept, j);
  }

  lemma KeepsOn(noCase: bool, m: KeyVal, key: string, value: Option<string>, left: KeyVal, k: nat, r: nat,
                kept: KeyVal, j: nat)
    requires Sorted(noCase, m) && ErasingOn(noCase, m, key, value, left, k, r, kept, j)
    requires j < |left| && !Less(noCase, key, left[j].entry.item)
    requires value.Some? && !Same(noCase, left[j].value, value.value)
    ensures ErasingOn(noCase, m, key, value, left, k, r + 1, kept + [left[j]], j + 1) == true
  {
    Keeps(noCase, m, key, value, left, k, r, kept, j);
    GoesOn(noCase, m, key, value, left, k, r + 1, kept + [left[j]], j + 1);
  }

  /** From the first entry of the key on, the loop leaves what the specification leaves. */
  lemma ErasesRun(noCase: bool, m: KeyVal, key: string, value: Option<string>, k: nat)
    requires Sorted(noCase, m) && k == Find(noCase, m, key) < |m|
    ensures EraseFrom(noCase, m, key, value, k) == Without(noCase, m, key, value)
  {
    ErasingStarts(noCase, m, key, value);
    GoesOn(noCase, m, key, value, m, k, k, [], k);
    EraseFromIs(noCase, m, key, value, m, k, k, [], k);
  }

  /** The loop of DeleteValue, from the first entry of the key on. */
  method EraseRun(noCase: bool, m: KeyVal, key: string, value: Option<string>, first: nat)
    returns (left: KeyVal, deleted: bool)
    requires Sorted(noCase, m) && first == Find(noCase, m, key) < |m|
    ensures left == Without(noCase, m, key, value)
    ensures deleted <==> left != m
  {
    var j: nat := first;
    left, deleted := m, false;
    ErasesRun(noCase, m, key, value, first);
    while j < |left| && !Less(noCase, key, left[j].entry.item)
      invariant j <= |left| && EraseFrom(noCase, left, key, value, j) == Without(noCase, m, key, value)
      invariant |left| <= |m| && (deleted <==> |left| < |m|)
      decreases |left| - j
    {
      if value.None? || Same(noCase, left[j].value, value.value) {
        left := left[..j] + left[j + 1..];
        deleted := true;
      } else {
        j := j + 1;
      }
    }
    S.WithoutLess(noCase, m, key, value);
  }

  /** The loop of AddEntry that looks for the earliest entry of a key. */
  method EarliestOfRun(noCase: bool, m: KeyVal, key: string, order: int)
    returns (loadOrder: int, comment: Option<string>)
    requires Sorted(noCase, m) && Find(noCase, m, key) < |m|
    ensures (loadOrder, comment) == Earliest(Named(noCase, m, key), order, None)
  {
    NamedIsRun(noCase, m, key);
    ghost var u := Upper(noCase, m, key);
    var j := Find(noCase, m, key);
    loadOrder, comment := order, None;
    RunEnds(noCase, m, key, j);
    while j < |m| && !Less(noCase, key, m[j].entry.item)
      invariant Find(noCase, m, key) <= j <= u <= |m|
      invariant (j < |m| && !Less(noCase, key, m[j].entry.item)) <==> j < u
      invariant Earliest(m[j..u], loadOrder, comment) == Earliest(Named(noCase, m, key), order, None)
    {
      assert m[j..u][1..] == m[j + 1..u];
      if m[j].entry.order < loadOrder {
        loadOrder, comment := m[j].entry.order, m[j].entry.comment;
      }
      j := j + 1;
      if j < |m| {
        RunEnds(noCase, m, key, j);
      }
    }
  }

  /** The loop of GetAllKeys. */
  method KeysOfRuns(noCase: bool, m: KeyVal) returns (names: seq<Entry>)
    ensures names == AllKeys(noCase, m, None)
  {
    names := [];
    var lastKey: Option<string> := None;
    var n := 0;
    assert m[0..] == m;
    while n < |m|
      invariant 0 <= n <= |m|
      invariant names + AllKeys(noCase, m[n..], lastKey) == AllKeys(noCase, m, None)
    {
      assert m[n..][1..] == m[n + 1..];
      if lastKey.None? || Less(noCase, lastKey.value, m[n].entry.item) {
        names := names + [m[n].entry];
        lastKey := Some(m[n].entry.item);
      }
      n := n + 1;
    }
  }

  /** The loop of GetSectionSize. */
  method CountRuns(noCase: bool, m: KeyVal) returns (count: int)
    requires Sorted(noCase, m)
    ensures count == |AllKeys(noCase, m, None)| == |FoldedNames(noCase, m)|
  {
    AllKeysCount(noCase, m);
    count := 0;
    var lastKey: Option<string> := None;
    var n := 0;
    assert m[0..] == m;
    while n < |m|
      invariant 0 <= n <= |m|
      invariant count + |AllKeys(noCase, m[n..], lastKey)| == |AllKeys(noCase, m, None)|
    {
      assert m[n..][1..] == m[n + 1..];
      if lastKey.None? || Less(noCase, lastKey.value, m[n].entry.item) {
        count := count + 1;
        lastKey := Some(m[n].entry.item);
      }
      n := n + 1;
    }
  }

  /** The loop of GetAllValues behind the first entry, which is at i; the run ends at u. */
  method CopyRun(noCase: bool, m: KeyVal, key: string, i: nat, ghost u: int) returns (values: KeyVal)
    requires i < u <= |m|
    requires forall j :: i < j < |m| ==> (Less(noCase, key, m[j].entry.item) <==> j >= u)
    ensures values == m[i..u]
  {
    values := [m[i]];
    var j := i + 1;
    while j < |m| && !Less(noCase, key, m[j].entry.item)
      invariant i < j <= u && values == m[i..j]
    {
      Longer(m, i, j);
      values := values + [m[j]];
      j := j + 1;
    }
  }

  /** GetAllValues of a key that is there. */
  method ValuesOfRun(f: Format, m: KeyVal, key: string) returns (values: KeyVal)
    requires Sorted(f.noCase, m) && Find(f.noCase, m, key) < |m|
    ensures Named(f.noCase, m, key) != []
    ensures values == if f.multiKey then Named(f.noCase, m, key) else Named(f.noCase, m, key)[..1]
  {
    var i := Find(f.noCase, m, key);
    ghost var u := Upper(f.noCase, m, key);
    RunStarts(f.noCase, m, key, i, u);
    if f.multiKey {
      values := CopyRun(f.noCase, m, key, i, u);
    } else {
      values := [m[i]];
    }
  }

  lemma Longer(m: KeyVal, i: nat, j: nat)
    requires i <= j < |m|
    ensures m[i..j] + [m[j]] == m[i..j + 1]
  {
  }

  lemma RunStarts(noCase: bool, m: KeyVal, key: string, i: nat, u: int)
    requires Sorted(noCase, m) == true && i == Find(noCase, m, key) < |m| && u == Upper(noCase, m, key)
    ensures i < u <= |m| && Named(noCase, m, key) == m[i..u] != [] && Named(noCase, m, key)[..1] == [m[i]]
    ensures forall j :: i < j < |m| ==> (Less(noCase, key, m[j].entry.item) <==> j >= u)
  {
    NamedIsRun(noCase, m, key);
    forall j | i < j < |m| ensures Less(noCase, key, m[j].entry.item) <==> j >= u {
      RunEnds(noCase, m, key, j);
    }
  }

  // ------------------------------------------------------------------ loops over a text

  method LooksMultiLine(v: string) returns (r: bool)
    ensures r <==> IsMultiLineData(v)
  {
    if v == [] {
      return false;
    }
    if IsSpace(v[0]) {
      return true;
    }
    var i := 0;
    while i < |v|
      invariant 0 <= i <= |v| && forall k :: 0 <= k < i ==> !IsNewLineChar(v[k])
    {
      if IsNewLineChar(v[i]) {
        return true;
      }
      i := i + 1;
    }
    return IsSpace(v[i - 1]);
  }

  method LooksQuotable(v: string) returns (r: bool)
    ensures r <==> IsSingleLineQuotedValue(v)
  {
    if v == [] {
      return false;
    }
    if IsSpace(v[0]) {
      return true;
    }
    var i := 0;
    while i < |v|
      invariant 0 <= i <= |v| && forall k :: 0 <= k < i ==> !IsNewLineChar(v[k])
    {
      if IsNewLineChar(v[i]) {
        return false;
      }
      i := i + 1;
    }
    return IsSpace(v[i - 1]);
  }

  /** OutputMultiLineText: every line with a newline behind it. */
  method OutputMultiLineText(text: string) returns (out: string)
    ensures out == MultiLineOut(text)
  {
    out := [];
    var p := 0;
    var more := text != [];
    assert text[..0] == [];
    while more
      invariant 0 <= p <= |text| + 1
      invariant more ==> p <= |text| && out == text[..p]
      invariant !more ==> out == MultiLineOut(text)
      decreases |text| + 1 - p, more
    {
      var e := p;
      while e < |text| && text[e] != '\n'
        invariant p <= e <= |text|
      {
        e := e + 1;
      }
      assert text[..p] + text[p..e] == text[..e];
      out := out + text[p..e] + "\n";
      more := e < |text|;
      assert more ==> text[..e] + "\n" == text[..e + 1];
      assert !more ==> text[..e] == text;
      p := e + 1;
    }
  }

  // ------------------------------------------------------------------ writing

  lemma {:induction false} ItemsTextConcat(f: Format, a: seq<Item>, b: seq<Item>)
    ensures ItemsText(f, a + b) == ItemsText(f, a) + ItemsText(f, b)
    decreases |a|
  {
    if a == [] {
      assert a + b == b;
    } else {
      assert (a + b)[1..] == a[1..] + b;
      ItemsTextConcat(f, a[1..], b);
    }
  }

  method WriteValue(f: Format, v: string) returns (text: string)
    ensures text == ValueText(f, v)
  {
    var quotable := LooksQuotable(v);
    if f.parseQuotes && quotable {
      return "\"" + v + "\"";
    }
    var multiLine := LooksMultiLine(v);
    if f.multiLine && multiLine {
      var lines := OutputMultiLineText(v);
      return "<<<" + END + "\n" + lines + END;
    }
    return v;
  }

  method WriteItem(f: Format, key: string, value: string, comment: Option<string>) returns (text: string)
    ensures text == ItemText(f, Item(key, value, comment))
  {
    text := "";
    if comment.Some? {
      var lines := OutputMultiLineText(comment.value);
      text := "\n" + lines;
    }
    var valueText := WriteValue(f, value);
    text := text + key + Separator(f) + valueText + "\n";
  }

  method WriteRun(f: Format, key: string, values: KeyVal) returns (text: string)
    ensures text == ItemsText(f, ItemsOfRun(key, values))
  {
    text := "";
    var i := 0;
    assert values[0..] == values;
    while i < |values|
      invariant 0 <= i <= |values|
      invariant text + ItemsText(f, ItemsOfRun(key, values[i..])) == ItemsText(f, ItemsOfRun(key, values))
    {
      WritesRun(f, key, values, i);
      var item := WriteItem(f, key, values[i].value, values[i].entry.comment);
      text := text + item;
      i := i + 1;
    }
  }

  lemma WritesRun(f: Format, key: string, values: KeyVal, i: nat)
    requires i < |values|
    ensures ItemsText(f, ItemsOfRun(key, values[i..]))
         == ItemText(f, Item(key, values[i].value, values[i].entry.comment))
           + ItemsText(f, ItemsOfRun(key, values[i + 1..]))
  {
    assert values[i..][1..] == values[i + 1..];
    var rest := ItemsOfRun(key, values[i + 1..]);
    assert ([Item(key, values[i].value, values[i].entry.comment)] + rest)[1..] == rest;
  }

  function Head(e: Entry, needNewLine: bool): string {
    (if needNewLine then "\n\n" else "") + (if e.comment.Some? then MultiLineOut(e.comment.value) else "")
      + Header(e.item)
  }

  /** The newlines, the comment and the header before a section's keys. */
  method WriteHead(e: Entry, needNewLine: bool) returns (text: string)
    ensures text == Head(e, needNewLine)
  {
    text := if needNewLine then "\n\n" else "";
    if e.comment.Some? {
      var lines := OutputMultiLineText(e.comment.value);
      text := text + lines;
    }
    if e.item != [] {
      text := text + ("[" + e.item + "]\n");
    }
  }

  lemma SectWritten(f: Format, sects: seq<Sect>, i: nat, needNewLine: bool, output: string, text: string, total: string)
    requires i < |sects| && output + SectsText(f, sects[i..], needNewLine) == total
    requires text == SectText(f, sects[i], needNewLine)
    ensures (output + text) + SectsText(f, sects[i + 1..], true) == total
  {
    assert sects[i..][0] == sects[i] && sects[i..][1..] == sects[i + 1..];
    assert output + (text + SectsText(f, sects[i + 1..], true)) == (output + text) + SectsText(f, sects[i + 1..], true);
  }

  lemma NothingWritten(f: Format, sects: seq<Sect>, fileComment: Option<string>)
    ensures fileComment.None? ==> "" + SectsText(f, sects[0..], false) == SaveText(f, fileComment, sects)
    ensures fileComment.Some? ==>
      MultiLineOut(fileComment.value) + SectsText(f, sects[0..], true) == SaveText(f, fileComment, sects)
  {
    assert sects[0..] == sects;
  }

  lemma AllWritten(f: Format, sects: seq<Sect>, needNewLine: bool, output: string)
    ensures output + SectsText(f, sects[|sects|..], needNewLine) == output
  {
    assert sects[|sects|..] == [];
  }

  /** The splice of Save. */
  method MoveEmptyFirst(es: seq<Entry>) returns (r: seq<Entry>)
    ensures r == EmptyFirst(es)
  {
    var i := 0;
    while i < |es| && es[i].item != []
      invariant 0 <= i <= |es| && forall k :: 0 <= k < i ==> es[k].item != []
    {
      i := i + 1;
    }
    assert i == EmptyAt(es);
    r := if i < |es| then [es[i]] + es[..i] + es[i + 1..] else es;
  }

  // ------------------------------------------------------------------ reading

  /** What FindEntry hands to AddEntry. */
  ghost predicate IsCall(r: P.Found, next: int, name: string, key: Option<string>, value: Option<string>,
                         comment: Option<string>) {
    match r
    case NoMore => false
    case SectionFound(n, c, d) => next == d && name == n && comment == c && key.None? && value.None?
    case KeyFound(n, k, v, c, d) => next == d && name == n && comment == c && key == Some(k) && value == Some(v)
  }

  /** FindEntry, and the strings at its pointers. */
  method NextCall(f: Format, buf: array<char>, p: int, section: string)
    returns (found: bool, next: int, name: string, key: Option<string>, value: Option<string>, comment: Option<string>)
    requires Ended(buf[..]) && 0 <= p < buf.Length
    modifies buf
    ensures found <==> !P.NextEntry(f, old(buf[..]), p, P.Named(section), None).NoMore?
    ensures found ==> IsCall(P.NextEntry(f, old(buf[..]), p, P.Named(section), None), next, name, key, value, comment)
    ensures found ==> p < next < buf.Length && Ended(buf[..]) && L.SameFrom(old(buf[..]), buf[..], next)
  {
    var pSection, pKey, pVal, pComment;
    found, next, pSection, pKey, pVal, pComment := F.FindEntry(f, buf, p, section);
    name, key, value, comment := section, None, None, None;
    if found {
      if pSection >= 0 {
        name := L.ReadString(buf, pSection);
      }
      if pComment >= 0 {
        var text := L.ReadString(buf, pComment);
        comment := Some(text);
      }
      if pKey >= 0 {
        var k := L.ReadString(buf, pKey);
        var v := L.ReadString(buf, pVal);
        key, value := Some(k), Some(v);
      }
    }
  }

  /** One turn of the loop of LoadData. */
  lemma CallLoads(f: Format, b: string, now: string, p: int, section: string, st: Store, next: int, name: string,
                  key: Option<string>, value: Option<string>, comment: Option<string>)
    requires Ended(b) && 0 <= p < |b| && L.SameFrom(b, now, p)
    requires IsCall(P.NextEntry(f, now, p, P.Named(section), None), next, name, key, value, comment) && p < next < |b|
    ensures D.LoadFrom(f, b, p, section, st)
      == D.LoadFrom(f, b, next, name, S.AddEntry(f, st, name, key, value, comment, false))
  {
    F.NextEntryAgrees(f, b, now, p, p, P.Named(section), None);
  }

  lemma NoCall(f: Format, b: string, now: string, p: int, section: string, st: Store)
    requires Ended(b) && 0 <= p < |b| && L.SameFrom(b, now, p) && P.NextEntry(f, now, p, P.Named(section), None).NoMore?
    ensures D.LoadFrom(f, b, p, section, st) == st
  {
    F.NextEntryAgrees(f, b, now, p, p, P.Named(section), None);
  }

  /** FindFileComment. There is only one. */
  method FindFileComment(buf: array<char>, was: Option<string>) returns (fileComment: Option<string>, next: int)
    requires Ended(buf[..])
    modifies buf
    ensures was.Some? || !IsComment(old(buf[0])) ==> fileComment == was && next == 0 && buf[..] == old(buf[..])
    ensures was.None? && IsComment(old(buf[0])) ==>
      fileComment == Some(Comments(old(buf[..]), 0, false).0) && next == Comments(old(buf[..]), 0, false).1
    ensures 0 <= next < buf.Length && Ended(buf[..]) && L.SameFrom(old(buf[..]), buf[..], next)
  {
    fileComment, next := was, 0;
    if was.None? {
      ghost var b := buf[..];
      var found, data := L.LoadComment(buf, 0, false);
      if found {
        FileCommentString(b, buf[..], data);
        var text := L.ReadString(buf, 0);
        fileComment, next := Some(text), data;
      }
    }
  }

  lemma FileCommentString(b: string, now: string, data: int)
    requires L.Loaded(b, now, 0, false, data)
    ensures CString(now, 0) == Comments(b, 0, false).0 && 0 <= data < |b|
  {
    F.CommentsNoNul(b, 0, false);
    F.NoNulIn(Comments(b, 0, false).0);
    L.CStringIs(now, 0, Comments(b, 0, false).0);
  }

  // ------------------------------------------------------------------ the object

  /** AddEntry from where it looks for the key. */
  method AddToKeys(f: Format, m: KeyVal, key: string, value: string, comment: Option<string>, force: bool, order: int)
    returns (keys: KeyVal, inserted: bool)
    requires Sorted(f.noCase, m)
    ensures keys == AddKey(f, m, key, value, comment, force, order)
    ensures inserted <==> Named(f.noCase, m, key) == []
  {
    FoundNamed(f.noCase, m, key);
    var i := Find(f.noCase, m, key);
    inserted := i == |m|;
    var loadOrder, pComment := order, comment;
    keys := m;
    if i < |m| && f.multiKey && force {
      var first;
      loadOrder, first := EarliestOfRun(f.noCase, m, key, order);
      if first.Some? {
        pComment := first;
      }
      var deleted;
      keys, deleted := EraseRun(f.noCase, m, key, None, i);
      i := |keys|;
    }
    var forceCreateNewKey := f.multiKey && !force;
    if i == |keys| || forceCreateNewKey {
      keys := Insert(f.noCase, keys, Pair(Entry(key, pComment, loadOrder), value));
    } else {
      keys := keys[i := keys[i].(value := value)];
    }
  }

  class SimpleIni {
    const format: Format
    var data: S.Sections
    var order: int
    var fileComment: Option<string>
    var storeIsUtf8: bool
    var loaded: bool

    function Value(): Store
      reads this
    {
      Store(data, order)
    }

    ghost predicate Valid()
      reads this
    {
      S.Ok(format, Value())
    }

    constructor (format: Format, isUtf8: bool)
      ensures Valid() && this.format == format && Value() == Store([], 0) && fileComment == None
      ensures storeIsUtf8 == isUtf8 && !loaded
    {
      this.format := format;
      data, order, fileComment, storeIsUtf8, loaded := [], 0, None, isUtf8, false;
      new;
      S.EmptyOk(format);
    }

    /** Creates the section entry if necessary. */
    method MakeSection(section: string, comment: Option<string>) returns (inserted: bool)
      modifies this`data, this`order
      ensures Value() == S.WithSection(format, old(Value()), section, comment)
      ensures inserted <==> !old(S.HasSection(format, Value(), section))
    {
      inserted := Find(format.noCase, data, section) == |data|;
      if inserted {
        order := order + 1;
        data := Insert(format.noCase, data, Pair(Entry(section, comment, order), []));
      }
    }

    /** Adds the key to the section, which is there. */
    method MakeKey(section: string, key: string, value: string, comment: Option<string>, force: bool)
      returns (inserted: bool)
      requires S.HasSection(format, Value(), section) && Sorted(format.noCase, S.KeysOf(format, Value(), section))
      modifies this`data, this`order
      ensures Value() == S.AddEntry(format, old(Value()), section, Some(key), Some(value), comment, force)
      ensures inserted <==> Named(format.noCase, old(S.KeysOf(format, Value(), section)), key) == []
    {
      var i := Find(format.noCase, data, section);
      order := order + 1;
      var keys;
      keys, inserted := AddToKeys(format, data[i].value, key, value, comment, force, order);
      data := data[i := data[i].(value := keys)];
    }

    /** True if the section, or if a key is given the key, is new. */
    method AddEntry(section: string, key: Option<string>, value: Option<string>, comment: Option<string>, force: bool)
      returns (inserted: bool)
      requires Valid()
      modifies this`data, this`order
      ensures Valid() == true
      ensures Value() == S.AddEntry(format, old(Value()), section, key, value, comment, force)
      ensures inserted == Inserts(format, old(Value()), section, key)
    {
      ghost var st := Value();
      S.AddEntryOk(format, st, section, key, value, comment, force);
      AddsInTwo(format, st, section, key, value, comment, force);
      inserted := MakeSection(section, if key.None? then comment else None);
      if key.Some? {
        inserted := MakeKey(section, key.value, S.ValueOf(value), comment, force);
      }
    }

    /** Deletes a key, or of its entries those with that value, or without a key the section. */
    method DeleteValue(section: Option<string>, key: Option<string>, value: Option<string>, removeEmpty: bool)
      returns (deleted: bool)
      requires Valid()
      modifies this`data
      ensures Valid() == true
      ensures section.None? ==> !deleted && Value() == old(Value())
      ensures section.Some? ==>
        (Value(), deleted) == S.DeleteValue(format, old(Value()), section.value, key, value, removeEmpty)
    {
      if section.None? {
        return false;
      }
      S.DeleteOk(format, Value(), section.value, key, value, removeEmpty);
      var i := Find(format.noCase, data, section.value);
      if i == |data| {
        return false;
      }
      if key.Some? {
        var keys := data[i].value;
        var first := Find(format.noCase, keys, key.value);
        if first == |keys| {
          NothingToErase(format.noCase, keys, key.value, value);
          return false;
        }
        var left;
        left, deleted := EraseRun(format.noCase, keys, key.value, value, first);
        S.WithoutLess(format.noCase, keys, key.value, value);
        if !deleted {
          return false;
        }
        data := data[i := data[i].(value := left)];
        if !removeEmpty || left != [] {
          return true;
        }
      }
      EraseAfterSet(data, old(data), i);
      data := data[..i] + data[i + 1..];
      return true;
    }

    /** Delete. */
    method Delete(section: Option<string>, key: Option<string>, removeEmpty: bool) returns (deleted: bool)
      requires Valid()
      modifies this`data
      ensures Valid() == true
      ensures section.None? ==> !deleted && Value() == old(Value())
      ensures section.Some? ==>
        (Value(), deleted) == S.DeleteValue(format, old(Value()), section.value, key, None, removeEmpty)
    {
      deleted := DeleteValue(section, key, None, removeEmpty);
    }

    method GetAllKeys(section: Option<string>) returns (found: bool, names: seq<Entry>)
      ensures found <==> section.Some? && S.HasSection(format, Value(), section.value)
      ensures found ==> names == AllKeys(format.noCase, S.KeysOf(format, Value(), section.value), None)
      ensures !found ==> names == []
    {
      if section.None? {
        return false, [];
      }
      var i := Find(format.noCase, data, section.value);
      if i == |data| {
        return false, [];
      }
      found := true;
      names := KeysOfRuns(format.noCase, data[i].value);
    }

    /** The number of different keys, which is how many GetAllKeys returns; -1 without the section. */
    method GetSectionSize(section: Option<string>) returns (size: int)
      requires Valid()
      ensures section.None? || !S.HasSection(format, Value(), section.value) ==> size == -1
      ensures section.Some? && S.HasSection(format, Value(), section.value) ==>
        var m := S.KeysOf(format, Value(), section.value);
          size == |AllKeys(format.noCase, m, None)| == |FoldedNames(format.noCase, m)|
    {
      if section.None? {
        return -1;
      }
      var i := Find(format.noCase, data, section.value);
      if i == |data| {
        return -1;
      }
      AllKeysCount(format.noCase, data[i].value);
      if !format.multiKey || data[i].value == [] {
        if !format.multiKey {
          UniqueCount(format.noCase, data[i].value);
        }
        return |data[i].value|;
      }
      size := CountRuns(format.noCase, data[i].value);
    }

    method GetAllValues(section: Option<string>, key: Option<string>) returns (found: bool, values: KeyVal)
      requires Valid()
      ensures found <==>
        section.Some? && key.Some? && Named(format.noCase, S.KeysOf(format, Value(), section.value), key.value) != []
      ensures !found ==> values == []
      ensures found ==>
        var run := Named(format.noCase, S.KeysOf(format, Value(), section.value), key.value);
        values == if format.multiKey then run else [run[0]]
    {
      if section.None? || key.None? {
        return false, [];
      }
      var i := Find(format.noCase, data, section.value);
      if i == |data| {
        return false, [];
      }
      FoundNamed(format.noCase, data[i].value, key.value);
      if Find(format.noCase, data[i].value, key.value) == |data[i].value| {
        return false, [];
      }
      found := true;
      values := ValuesOfRun(format, data[i].value, key.value);
    }

    method SaveKey(section: string, key: Entry) returns (text: string)
      requires Valid()
      ensures text == ItemsText(format, ItemsOfKey(format, S.KeysOf(format, Value(), section), key))
    {
      var _, values := GetAllValues(Some(section), Some(key.item));
      assert values == ValuesOf(format, S.KeysOf(format, Value(), section), key.item);
      text := WriteRun(format, key.item, values);
    }

    method SaveKeys(section: string) returns (text: string)
      requires Valid()
      ensures text == ItemsText(format, ItemsOf(format, S.KeysOf(format, Value(), section), order))
    {
      ghost var m := S.KeysOf(format, Value(), section);
      var found, names := GetAllKeys(Some(section));
      assert names == AllKeys(format.noCase, m, None);
      var keys := ByOrder(names, order);
      text := "";
      var k := 0;
      while k < |keys|
        invariant 0 <= k <= |keys|
        invariant text == ItemsText(format, ItemsOfKeys(format, m, keys[..k]))
      {
        var item := SaveKey(section, keys[k]);
        KeyWritten(format, m, keys, k);
        text := text + item;
        k := k + 1;
      }
      assert keys[..k] == keys;
    }

    method SaveSection(e: Entry, needNewLine: bool) returns (text: string)
      requires Valid()
      ensures text == SectText(format, SectOf(format, Value(), e), needNewLine)
    {
      var head := WriteHead(e, needNewLine);
      var items := SaveKeys(e.item);
      text := head + items;
    }

    /** The sections in load order, the one without a name first, each with its keys in load order. */
    method Save(addSignature: bool) returns (output: string)
      requires Valid()
      ensures output
        == D.Signed(storeIsUtf8 && addSignature, SaveText(format, fileComment, Content(format, Value())))
    {
      var text := SaveAll();
      output := if storeIsUtf8 && addSignature then D.SIGNATURE + text else text;
    }

    /** Save from behind the signature. */
    method SaveAll() returns (output: string)
      requires Valid()
      ensures output == SaveText(format, fileComment, Content(format, Value()))
    {
      ghost var sects := Content(format, Value());
      ghost var total := SaveText(format, fileComment, sects);
      var names := MoveEmptyFirst(ByOrder(Entries(data), order));
      NothingWritten(format, sects, fileComment);
      output := "";
      var needNewLine := false;
      if fileComment.Some? {
        output := OutputMultiLineText(fileComment.value);
        needNewLine := true;
      }
      var i := 0;
      while i < |names|
        invariant 0 <= i <= |names| == |sects|
        invariant output + SectsText(format, sects[i..], needNewLine) == total
      {
        SectAt(format, Value(), names, i);
        var text := SaveSection(names[i], needNewLine);
        SectWritten(format, sects, i, needNewLine, output, text, total);
        output := output + text;
        needNewLine := true;
        i := i + 1;
      }
      AllWritten(format, sects, needNewLine, output);
    }

    /** Parses a text without a signature, and adds every entry. Strings are copied, as for a second load. */
    method Parse(text: string)
      requires Valid()
      modifies this`data, this`order, this`fileComment
      ensures Valid() == true
      ensures (Value(), fileComment) == D.LoadPlain(format, text, old(Value()), old(fileComment))
    {
      if text == [] {
        return;
      }
      var buf := new char[|text| + 1](i => if 0 <= i < |text| then text[i] else NUL);
      ghost var b := text + [NUL];
      assert buf[..] == b;
      ghost var st := Value();
      var work;
      fileComment, work := FindFileComment(buf, fileComment);
      var section := "";
      ghost var target := D.LoadFrom(format, b, work, section, st);
      while true
        invariant 0 <= work < buf.Length == |b| && Ended(buf[..]) && L.SameFrom(b, buf[..], work)
        invariant Valid() == true
        invariant D.LoadFrom(format, b, work, section, Value()) == target
        invariant fresh(buf) && fileComment == D.LoadPlain(format, text, st, old(fileComment)).1
        decreases buf.Length - work
      {
        ghost var now, was := buf[..], Value();
        var found, next, name, key, value, comment := NextCall(format, buf, work, section);
        if !found {
          NoCall(format, b, now, work, section, was);
          break;
        }
        CallLoads(format, b, now, work, section, was, next, name, key, value, comment);
        var _ := AddEntry(name, key, value, comment, false);
        work, section := next, name;
      }
    }

    /** A signature sets the store to UTF-8, unless something has been loaded before. The rest is parsed. */
    method LoadData(text: string)
      requires Valid()
      modifies this
      ensures Valid() == true
      ensures (Value(), fileComment) == D.LoadText(format, text, old(Value()), old(fileComment))
      ensures storeIsUtf8 == (old(storeIsUtf8) || (D.Marked(text) && !old(loaded)))
      ensures loaded == (old(loaded) || D.Unmarked(text) != [])
    {
      var rest := text;
      if |text| >= 3 && text[..3] == D.SIGNATURE {
        rest := text[3..];
        if !loaded {
          storeIsUtf8 := true;
        }
      }
      assert rest == D.Unmarked(text);
      Parse(rest);
      loaded := loaded || rest != [];
    }
  }

  lemma KeyWritten(f: Format, m: KeyVal, keys: seq<Entry>, k: nat)
    requires k < |keys|
    ensures ItemsText(f, ItemsOfKeys(f, m, keys[..k + 1]))
      == ItemsText(f, ItemsOfKeys(f, m, keys[..k])) + ItemsText(f, ItemsOfKey(f, m, keys[k]))
  {
    assert keys[..k + 1][..k] == keys[..k];
    ItemsTextConcat(f, ItemsOfKeys(f, m, keys[..k]), ItemsOfKey(f, m, keys[k]));
  }

  lemma NothingToErase(noCase: bool, m: KeyVal, key: string, value: Option<string>)
    requires Find(noCase, m, key) == |m|
    ensures Without(noCase, m, key, value) == m
  {
    WithoutNone(noCase, m, key, value);
  }

  lemma EraseAfterSet(m: S.Sections, was: S.Sections, i: nat)
    requires i < |m| == |was| && forall k :: 0 <= k < |m| && k != i ==> m[k] == was[k]
    ensures m[..i] + m[i + 1..] == was[..i] + was[i + 1..]
  {
  }

  ghost predicate Inserts(f: Format, st: Store, section: string, key: Option<string>) {
    !S.HasSection(f, st, section) || (key.Some? && Named(f.noCase, S.KeysOf(f, st, section), key.value) == [])
  }

  /** First the section, then the key. */
  lemma AddsInTwo(f: Format, st: Store, section: string, key: Option<string>, value: Option<string>,
                  comment: Option<string>, force: bool)
    requires S.Ok(f, st)
    ensures var t := S.WithSection(f, st, section, if key.None? then comment else None);
      && S.HasSection(f, t, section) && Sorted(f.noCase, S.KeysOf(f, t, section))
      && S.KeysOf(f, t, section) == S.KeysOf(f, st, section)
      && (!S.HasSection(f, st, section) ==> S.KeysOf(f, t, section) == [])
      && S.AddEntry(f, st, section, key, value, comment, force)
         == (if key.None? then t else S.AddEntry(f, t, section, key, Some(S.ValueOf(value)), comment, force))
  {
    S.SectionMeans(f, st, section, if key.None? then comment else None, section);
    S.WithSectionOk(f, st, section, if key.None? then comment else None);
  }
}
