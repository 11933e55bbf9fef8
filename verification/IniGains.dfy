/** How much a text can put into a store: the lengths of the keys and values that are found in it. A clause that says
    `P(..) == true` states P as one fact, which the verifier does not unfold there. */
module IniGains {
  import opened Options
  import opened IniCompare
  import opened IniFormat
  import opened IniStore
  import opened IniText
  import P = IniParse
  import opened IniPrint
  import opened IniValues
  import opened IniContent
  import opened IniBuild
  import D = IniDocument
  import F = IniFind
  import H = IniHeaders
  import S = IniSections

  /** What a key with its value is worth. A value with the end tag of saved blocks in it does not count. */
  ghost function Gain(f: Format, key: string, value: string): nat {
    |key| + if TagFree(Like(f.noCase, END), value) then |value| else 0
  }

  // ------------------------------------------------------------------ what is in the store

  ghost function Kept(f: Format, m: KeyVal): nat {
    if m == [] then 0 else Gain(f, m[0].entry.item, m[0].value) + Kept(f, m[1..])
  }

  ghost function Stored(f: Format, m: S.Sections): nat {
    if m == [] then 0 else Kept(f, m[0].value) + Stored(f, m[1..])
  }

  lemma {:induction false} KeptConcat(f: Format, a: KeyVal, b: KeyVal)
    ensures Kept(f, a + b) == Kept(f, a) + Kept(f, b)
    decreases |a|
  {
    if a == [] {
      assert a + b == b;
    } else {
      assert (a + b)[1..] == a[1..] + b;
      KeptConcat(f, a[1..], b);
    }
  }

  lemma {:induction false} StoredConcat(f: Format, a: S.Sections, b: S.Sections)
    ensures Stored(f, a + b) == Stored(f, a) + Stored(f, b)
    decreases |a|
  {
    if a == [] {
      assert a + b == b;
    } else {
      assert (a + b)[1..] == a[1..] + b;
      StoredConcat(f, a[1..], b);
    }
  }

  lemma KeptMiddle(f: Format, a: KeyVal, p: Pair<string>, b: KeyVal)
    ensures Kept(f, a + [p] + b) == Kept(f, a) + Gain(f, p.entry.item, p.value) + Kept(f, b)
  {
    KeptConcat(f, a + [p], b);
    KeptConcat(f, a, [p]);
    assert [p][1..] == [];
  }

  lemma StoredMiddle(f: Format, a: S.Sections, p: Pair<KeyVal>, b: S.Sections)
    ensures Stored(f, a + [p] + b) == Stored(f, a) + Kept(f, p.value) + Stored(f, b)
  {
    StoredConcat(f, a + [p], b);
    StoredConcat(f, a, [p]);
    assert [p][1..] == [];
  }

  lemma KeptAt(f: Format, m: KeyVal, i: nat, p: Pair<string>)
    requires i < |m|
    ensures Kept(f, m[i := p]) + Gain(f, m[i].entry.item, m[i].value) == Kept(f, m) + Gain(f, p.entry.item, p.value)
  {
    KeptMiddle(f, m[..i], m[i], m[i + 1..]);
    KeptMiddle(f, m[..i], p, m[i + 1..]);
    assert m == m[..i] + [m[i]] + m[i + 1..] && m[i := p] == m[..i] + [p] + m[i + 1..];
  }

  lemma StoredAt(f: Format, m: S.Sections, i: nat, p: Pair<KeyVal>)
    requires i < |m|
    ensures Stored(f, m[i := p]) + Kept(f, m[i].value) == Stored(f, m) + Kept(f, p.value)
  {
    StoredMiddle(f, m[..i], m[i], m[i + 1..]);
    StoredMiddle(f, m[..i], p, m[i + 1..]);
    assert m == m[..i] + [m[i]] + m[i + 1..] && m[i := p] == m[..i] + [p] + m[i + 1..];
  }

  lemma SameGain(f: Format, k: string, key: string, value: string)
    requires Same(f.noCase, k, key)
    ensures Gain(f, k, value) == Gain(f, key, value)
  {
    SameIsFoldedEqual(f.noCase, k, key);
    assert |Folded(f.noCase, k)| == |k| && |Folded(f.noCase, key)| == |key|;
  }

  lemma AddKeyGains(f: Format, m: KeyVal, key: string, value: string, comment: Option<string>, order: int)
    ensures Kept(f, AddKey(f, m, key, value, comment, false, order)) <= Kept(f, m) + Gain(f, key, value)
  {
    var i := Find(f.noCase, m, key);
    if i < |m| && !f.multiKey {
      KeptAt(f, m, i, m[i].(value := value));
      SameGain(f, m[i].entry.item, key, value);
    } else {
      var u := Upper(f.noCase, m, key);
      KeptMiddle(f, m[..u], Pair(Entry(key, comment, order), value), m[u..]);
      KeptConcat(f, m[..u], m[u..]);
      assert m == m[..u] + m[u..];
    }
  }

  lemma WithSectionGains(f: Format, st: Store, section: string, comment: Option<string>)
    ensures Stored(f, S.WithSection(f, st, section, comment).sections) == Stored(f, st.sections)
  {
    var m := st.sections;
    if Find(f.noCase, m, section) == |m| {
      var u := Upper(f.noCase, m, section);
      StoredMiddle(f, m[..u], Pair(Entry(section, comment, st.order + 1), []), m[u..]);
      StoredConcat(f, m[..u], m[u..]);
      assert m == m[..u] + m[u..];
    }
  }

  /** A call of AddEntry puts no more into the store than it is given. */
  lemma AddEntryGains(f: Format, st: Store, section: string, key: Option<string>, value: Option<string>,
                      comment: Option<string>)
    ensures Stored(f, S.AddEntry(f, st, section, key, value, comment, false).sections)
      <= Stored(f, st.sections) + if key.None? then 0 else Gain(f, key.value, S.ValueOf(value))
  {
    var t := S.WithSection(f, st, section, if key.None? then comment else None);
    WithSectionGains(f, st, section, if key.None? then comment else None);
    if key.Some? {
      var i := Find(f.noCase, t.sections, section);
      var keys := AddKey(f, t.sections[i].value, key.value, S.ValueOf(value), comment, false, t.order + 1);
      AddKeyGains(f, t.sections[i].value, key.value, S.ValueOf(value), comment, t.order + 1);
      StoredAt(f, t.sections, i, t.sections[i].(value := keys));
    }
  }

  // ------------------------------------------------------------------ what is in the content

  ghost function Size(f: Format, items: seq<Item>): nat {
    if items == [] then 0 else Gain(f, items[0].key, items[0].value) + Size(f, items[1..])
  }

  ghost function Sizes(f: Format, sects: seq<Sect>): nat {
    if sects == [] then 0 else Size(f, sects[0].items) + Sizes(f, sects[1..])
  }

  lemma {:induction false} SizeConcat(f: Format, a: seq<Item>, b: seq<Item>)
    ensures Size(f, a + b) == Size(f, a) + Size(f, b)
    decreases |a|
  {
    if a == [] {
      assert a + b == b;
    } else {
      assert (a + b)[1..] == a[1..] + b;
      SizeConcat(f, a[1..], b);
    }
  }

  lemma {:induction false} SizesConcat(f: Format, a: seq<Sect>, b: seq<Sect>)
    ensures Sizes(f, a + b) == Sizes(f, a) + Sizes(f, b)
    decreases |a|
  {
    if a == [] {
      assert a + b == b;
    } else {
      assert (a + b)[1..] == a[1..] + b;
      SizesConcat(f, a[1..], b);
    }
  }

  /** The sum of a function over entries. */
  ghost function Sum(g: Entry -> nat, es: seq<Entry>): nat {
    if es == [] then 0 else g(es[0]) + Sum(g, es[1..])
  }

  lemma {:induction false} SumConcat(g: Entry -> nat, a: seq<Entry>, b: seq<Entry>)
    ensures Sum(g, a + b) == Sum(g, a) + Sum(g, b)
    decreases |a|
  {
    if a == [] {
      assert a + b == b;
    } else {
      assert (a + b)[1..] == a[1..] + b;
      SumConcat(g, a[1..], b);
    }
  }

  /** The sum over the entries with an order from 1 to n. */
  ghost function SumTo(g: Entry -> nat, es: seq<Entry>, n: int): nat {
    if es == [] then 0 else (if 1 <= es[0].order <= n then g(es[0]) else 0) + SumTo(g, es[1..], n)
  }

  lemma {:induction false} SumPick(g: Entry -> nat, es: seq<Entry>, n: int)
    requires n > 0
    ensures SumTo(g, es, n) == SumTo(g, es, n - 1) + Sum(g, Pick(es, n))
  {
    if es != [] {
      SumPick(g, es[1..], n);
      if es[0].order == n {
        assert ([es[0]] + Pick(es[1..], n))[1..] == Pick(es[1..], n);
      }
    }
  }

  lemma {:induction false} SumNone(g: Entry -> nat, es: seq<Entry>, n: int)
    ensures n <= 0 ==> SumTo(g, es, n) == 0
    ensures SumTo(g, es, n) <= Sum(g, es)
  {
    if es != [] { SumNone(g, es[1..], n); }
  }

  lemma {:induction false} SumByOrder(g: Entry -> nat, es: seq<Entry>, n: int)
    ensures Sum(g, ByOrder(es, n)) == SumTo(g, es, n) <= Sum(g, es)
    decreases n
  {
    SumNone(g, es, n);
    if n > 0 {
      SumByOrder(g, es, n - 1);
      SumPick(g, es, n);
      SumConcat(g, ByOrder(es, n - 1), Pick(es, n));
    }
  }

  lemma SumEmptyFirst(g: Entry -> nat, es: seq<Entry>)
    ensures Sum(g, EmptyFirst(es)) == Sum(g, es)
  {
    var i := EmptyAt(es);
    if i < |es| {
      var a, e, b := es[..i], [es[i]], es[i + 1..];
      assert es == a + e + b;
      SumConcat(g, a + e, b);
      SumConcat(g, a, e);
      SumConcat(g, e + a, b);
      SumConcat(g, e, a);
    }
  }

  lemma {:induction false} NamedHolds<V>(noCase: bool, m: seq<Pair<V>>, name: string, i: nat)
    requires i < |m| && Same(noCase, m[i].entry.item, name)
    ensures m[i] in Named(noCase, m, name)
    decreases |m|
  {
    if i > 0 {
      NamedHolds(noCase, m[1..], name, i - 1);
    }
  }

  lemma Alone<V>(noCase: bool, m: seq<Pair<V>>, i: nat)
    requires Unique(noCase, m) && i < |m|
    ensures Named(noCase, m, m[i].entry.item) == [m[i]]
  {
    LessIrreflexive(noCase, m[i].entry.item);
    NamedHolds(noCase, m, m[i].entry.item, i);
    var run := Named(noCase, m, m[i].entry.item);
    assert |run| <= 1;
  }

  ghost function KeyGain(f: Format, m: KeyVal): Entry -> nat {
    e => Size(f, ItemsOfKey(f, m, e))
  }

  /** What the entries of these keys hold. */
  ghost function HeldBy(f: Format, m: KeyVal, es: seq<Entry>): nat {
    if es == [] then 0 else Kept(f, Named(f.noCase, m, es[0].item)) + HeldBy(f, m, es[1..])
  }

  ghost predicate IsAmong(f: Format, es: seq<Entry>, name: string) {
    exists i :: 0 <= i < |es| && Same(f.noCase, name, es[i].item)
  }

  /** The first entry belongs to one key at the most. */
  lemma {:induction false} FirstHeld(f: Format, m: KeyVal, es: seq<Entry>)
    requires m != [] && KeysApart(f, es)
    ensures var first := m[0];
      HeldBy(f, m, es) == HeldBy(f, m[1..], es)
        + if IsAmong(f, es, first.entry.item) then Gain(f, first.entry.item, first.value) else 0
    decreases |es|
  {
    if es != [] {
      var name := m[0].entry.item;
      assert forall i, j :: 0 <= i < j < |es[1..]| ==> es[1..][i] == es[i + 1] && es[1..][j] == es[j + 1];
      FirstHeld(f, m, es[1..]);
      var run := Named(f.noCase, m[1..], es[0].item);
      if Same(f.noCase, name, es[0].item) {
        assert ([m[0]] + run)[1..] == run;
        OnlyOne(f, es, name);
        assert IsAmong(f, es, name);
      } else {
        AmongTail(f, es, name);
      }
    }
  }

  lemma OnlyOne(f: Format, es: seq<Entry>, name: string)
    requires es != [] && KeysApart(f, es) && Same(f.noCase, name, es[0].item)
    ensures !IsAmong(f, es[1..], name)
  {
    forall i | 0 <= i < |es[1..]| ensures !Same(f.noCase, name, es[1..][i].item) {
      assert !Same(f.noCase, es[0].item, es[i + 1].item);
      SameOrder(f.noCase, name, es[0].item, es[i + 1].item);
    }
  }

  lemma AmongTail(f: Format, es: seq<Entry>, name: string)
    requires es != [] && !Same(f.noCase, name, es[0].item)
    ensures IsAmong(f, es, name) <==> IsAmong(f, es[1..], name)
  {
    if IsAmong(f, es, name) {
      var i :| 0 <= i < |es| && Same(f.noCase, name, es[i].item);
      assert es[1..][i - 1] == es[i];
    }
    if IsAmong(f, es[1..], name) {
      var i :| 0 <= i < |es[1..]| && Same(f.noCase, name, es[1..][i].item);
      assert es[i + 1] == es[1..][i];
    }
  }

  /** Different keys hold no more than there is. */
  lemma {:induction false} AllHeld(f: Format, m: KeyVal, es: seq<Entry>)
    requires KeysApart(f, es)
    ensures HeldBy(f, m, es) <= Kept(f, m)
    decreases |m|
  {
    if m == [] {
      NothingHeld(f, es);
    } else {
      FirstHeld(f, m, es);
      AllHeld(f, m[1..], es);
    }
  }

  lemma {:induction false} NothingHeld(f: Format, es: seq<Entry>)
    ensures HeldBy(f, [], es) == 0
    decreases |es|
  {
    if es != [] {
      NothingHeld(f, es[1..]);
    }
  }

  lemma {:induction false} RunGain(f: Format, name: string, run: KeyVal)
    requires forall i :: 0 <= i < |run| ==> Same(f.noCase, run[i].entry.item, name)
    ensures Size(f, ItemsOfRun(name, run)) == Kept(f, run)
    decreases |run|
  {
    if run != [] {
      RunGain(f, name, run[1..]);
      SameGain(f, run[0].entry.item, name, run[0].value);
      var items := ItemsOfRun(name, run);
      assert items[1..] == ItemsOfRun(name, run[1..]);
    }
  }

  lemma {:induction false} NamedAreSame<V>(noCase: bool, m: seq<Pair<V>>, name: string)
    ensures forall i :: 0 <= i < |Named(noCase, m, name)| ==> Same(noCase, Named(noCase, m, name)[i].entry.item, name)
    decreases |m|
  {
    if m != [] {
      NamedAreSame(noCase, m[1..], name);
    }
  }

  lemma KeyHolds(f: Format, m: KeyVal, e: Entry)
    ensures KeyGain(f, m)(e) <= Kept(f, Named(f.noCase, m, e.item))
  {
    var run := Named(f.noCase, m, e.item);
    NamedAreSame(f.noCase, m, e.item);
    RunGain(f, e.item, run);
    if run != [] {
      RunGain(f, e.item, run[..1]);
      assert run == run[..1] + run[1..];
      KeptConcat(f, run[..1], run[1..]);
    }
  }

  lemma {:induction false} KeysHold(f: Format, m: KeyVal, es: seq<Entry>)
    ensures Sum(KeyGain(f, m), es) <= HeldBy(f, m, es)
    decreases |es|
  {
    if es != [] {
      KeyHolds(f, m, es[0]);
      KeysHold(f, m, es[1..]);
    }
  }

  lemma {:induction false} ItemsSum(f: Format, m: KeyVal, es: seq<Entry>)
    ensures Size(f, ItemsOfKeys(f, m, es)) == Sum(KeyGain(f, m), es)
    decreases |es|
  {
    if es != [] {
      var init, last := es[..|es| - 1], es[|es| - 1];
      assert es == init + [last] && [last][1..] == [];
      ItemsSum(f, m, init);
      SizeConcat(f, ItemsOfKeys(f, m, init), ItemsOfKey(f, m, last));
      SumConcat(KeyGain(f, m), init, [last]);
    }
  }

  lemma FirstsDiffer(f: Format, m: KeyVal)
    requires Sorted(f.noCase, m)
    ensures KeysApart(f, AllKeys(f.noCase, m, None))
  {
    FirstsApart(f.noCase, m, None);
  }

  lemma ItemsGain(f: Format, m: KeyVal, n: int)
    requires S.KeysOk(f, m)
    ensures Size(f, ItemsOf(f, m, n)) <= Kept(f, m)
  {
    var g, es := KeyGain(f, m), AllKeys(f.noCase, m, None);
    ItemsSum(f, m, ByOrder(es, n));
    SumByOrder(g, es, n);
    KeysHold(f, m, es);
    FirstsDiffer(f, m);
    AllHeld(f, m, es);
  }

  ghost function SectGain(f: Format, st: Store): Entry -> nat {
    e => Size(f, SectOf(f, st, e).items)
  }

  lemma {:induction false} SectsSum(f: Format, st: Store, es: seq<Entry>)
    ensures Sizes(f, SectsOf(f, st, es)) == Sum(SectGain(f, st), es)
    decreases |es|
  {
    if es != [] {
      var init, last := es[..|es| - 1], es[|es| - 1];
      assert es == init + [last] && [last][1..] == [];
      SectsSum(f, st, init);
      var s := [SectOf(f, st, last)];
      assert s[1..] == [];
      SizesConcat(f, SectsOf(f, st, init), s);
      SumConcat(SectGain(f, st), init, [last]);
    }
  }

  lemma OneSectGain(f: Format, st: Store, i: nat)
    requires S.Ok(f, st) && i < |st.sections|
    ensures SectGain(f, st)(st.sections[i].entry) <= Kept(f, st.sections[i].value)
  {
    Alone(f.noCase, st.sections, i);
    S.KeysAreNamed(f, st, st.sections[i].entry.item);
    ItemsGain(f, st.sections[i].value, st.order);
  }

  lemma {:induction false} SectionsSum(f: Format, st: Store, i: nat)
    requires S.Ok(f, st) && i <= |st.sections|
    ensures Sum(SectGain(f, st), Entries(st.sections[i..])) <= Stored(f, st.sections[i..])
    decreases |st.sections| - i
  {
    var m := st.sections;
    if i < |m| {
      OneSectGain(f, st, i);
      SectionsSum(f, st, i + 1);
      assert m[i..][1..] == m[i + 1..];
      assert ([m[i].entry] + Entries(m[i + 1..]))[1..] == Entries(m[i + 1..]);
    }
  }

  /** The content of a store is no more than what is in it. */
  lemma ContentGains(f: Format, st: Store)
    requires S.Ok(f, st)
    ensures Sizes(f, Content(f, st)) <= Stored(f, st.sections)
  {
    var g, es := SectGain(f, st), SectionEntries(f, st);
    SectsSum(f, st, EmptyFirst(es));
    SumEmptyFirst(g, es);
    SumByOrder(g, Entries(st.sections), st.order);
    SectionsSum(f, st, 0);
    assert st.sections[0..] == st.sections;
  }

  // ------------------------------------------------------------------ what is in a text

  /** The keys and values that are found from p on, line by line: where the section pointer stands, and which comment
      comes first, does not matter. */
  ghost function Found(f: Format, b: string, p: int): nat
    requires Ended(b) && 0 <= p < |b|
    decreases |b| - p
  {
    var q := Scan(b, p, NotSpace);
    if b[q] == NUL then 0
    else if IsComment(b[q]) then Found(f, b, Scan(b, q, LineEnd))
    else if b[q] == '[' then Found(f, b, Scan(b, Scan(b, q + 1, NotSpace), LineEnd))
    else
      var e := Scan(b, q, Equals);
      if b[e] == '=' && e > q then
        var v := P.Value(f, b, e);
        if v.None? then 0 else Gain(f, b[q..TrimEnd(b, q, e)], v.value.0) + Found(f, b, v.value.1)
      else Found(f, b, Scan(b, e, LineEnd))
  }

  lemma FoundFrom(f: Format, b: string, p: int, q: int)
    requires Ended(b) && 0 <= p < |b| && p <= q <= Scan(b, p, NotSpace)
    ensures Found(f, b, q) == Found(f, b, p)
  {
    H.ScanTo(b, p, NotSpace, q);
  }

  /** A comment block is as many lines. */
  lemma {:induction false} FoundComments(f: Format, b: string, q: int, blank: bool)
    requires Ended(b) && 0 <= q < |b| && IsComment(b[q])
    ensures Found(f, b, Comments(b, q, blank).1) == Found(f, b, Scan(b, q, LineEnd))
    decreases |b| - q
  {
    var e := Scan(b, q, LineEnd);
    if b[e] != NUL {
      var next := AfterNewLine(b, e);
      H.NewLineScans(b, e);
      FoundFrom(f, b, e, next);
      if IsComment(b[next]) {
        FoundComments(f, b, next, blank);
      } else {
        var s := SkipBlank(b, next, 0).1;
        H.SkipBlankScans(b, next, 0);
        FoundFrom(f, b, next, s);
        if blank && IsComment(b[s]) {
          assert Scan(b, s, NotSpace) == s;
          FoundComments(f, b, s, blank);
        }
      }
    }
  }

  /** The line of a header ends in the same place for both scans. */
  lemma HeaderLine(b: string, n: int)
    requires Ended(b) && 0 <= n < |b|
    ensures var e := Scan(b, n, Bracket);
      if b[e] == ']' then e + 1 < |b| && Scan(b, e + 1, LineEnd) == Scan(b, n, LineEnd)
            else Scan(b, n, LineEnd) == e
  {
    var e := Scan(b, n, Bracket);
    ScanIsFirst(b, n, Bracket);
    if b[e] == ']' {
      var l := Scan(b, e + 1, LineEnd);
      ScanIsFirst(b, e + 1, LineEnd);
      forall i | n <= i < l ensures !Stops(LineEnd, b[i]) {
      }
      ScanOver(b, n, LineEnd, l);
    } else {
      ScanOver(b, n, LineEnd, e);
    }
  }

  /** While nothing is found, nothing is lost. */
  lemma FoundOn(f: Format, b: string, q: int, s: P.SectionAt, comment: Option<string>)
    requires Ended(b) && 0 <= q < |b| && (s.Raw? ==> 0 <= s.at <= q) && F.GoesOnAt(b, q, s, comment).Some?
    ensures var r := F.GoesOnAt(b, q, s, comment).value; q < r.0 < |b| && Found(f, b, r.0) == Found(f, b, q)
  {
    assert Scan(b, q, NotSpace) == q;
    if IsComment(b[q]) {
      FoundComments(f, b, q, true);
    } else if b[q] == '[' {
      HeaderLine(b, Scan(b, q + 1, NotSpace));
    } else {
      var e := Scan(b, q, Equals);
      if b[e] != '=' {
        assert Scan(b, e, LineEnd) == e;
      }
    }
  }

  /** What FindEntry finds next, and what is left. */
  ghost predicate Splits(f: Format, b: string, p: int, r: P.Found)
    requires Ended(b) && 0 <= p < |b|
  {
    match r
    case NoMore => true
    case SectionFound(_, _, next) => 0 <= next < |b| && Found(f, b, p) == Found(f, b, next)
    case KeyFound(_, key, value, _, next) =>
      0 <= next < |b| && Found(f, b, p) == Gain(f, key, value) + Found(f, b, next)
  }

  lemma {:induction false} FoundNext(f: Format, b: string, p: int, s: P.SectionAt, comment: Option<string>)
    requires Ended(b) && 0 <= p < |b| && (s.Raw? ==> 0 <= s.at <= p)
    ensures Splits(f, b, p, P.NextEntry(f, b, p, s, comment))
    decreases |b| - p
  {
    var q := Scan(b, p, NotSpace);
    F.SkipsSpace(f, b, p, s, comment);
    FoundFrom(f, b, p, q);
    var r := F.GoesOnAt(b, q, s, comment);
    if r.Some? {
      F.GoesOn(f, b, q, s, comment);
      FoundOn(f, b, q, s, comment);
      FoundNext(f, b, r.value.0, r.value.1, r.value.2);
    } else {
      FoundHere(f, b, q, s, comment);
    }
  }

  lemma FoundHere(f: Format, b: string, q: int, s: P.SectionAt, comment: Option<string>)
    requires Ended(b) && 0 <= q < |b| && !IsSpace(b[q]) && (s.Raw? ==> 0 <= s.at <= q)
    requires F.GoesOnAt(b, q, s, comment).None?
    ensures Splits(f, b, q, P.NextEntry(f, b, q, s, comment))
  {
    if b[q] == '[' {
      var n := Scan(b, q + 1, NotSpace);
      FoundHeader(f, b, q, s, comment, n, Scan(b, n, Bracket), P.NextEntry(f, b, q, s, comment));
    } else if b[q] == NUL {
      assert Scan(b, q, NotSpace) == q;
    } else {
      FoundKey(f, b, q, s, comment);
    }
  }

  lemma FoundHeader(f: Format, b: string, q: int, s: P.SectionAt, comment: Option<string>, n: int, e: int, r: P.Found)
    requires Ended(b) && 0 <= q < |b| && b[q] == '[' && (s.Raw? ==> 0 <= s.at <= q)
    requires n == Scan(b, q + 1, NotSpace) && e == Scan(b, n, Bracket) && b[e] == ']'
    requires r == P.NextEntry(f, b, q, s, comment)
    ensures Splits(f, b, q, r)
  {
    HeaderLine(b, n);
    FoundBracket(f, b, q, n);
    F.AtBracket(f, b, q, s, comment, n, e);
    SplitsSection(f, b, q, b[n..TrimEnd(b, n, e)], comment, Scan(b, e + 1, LineEnd));
  }

  lemma SplitsSection(f: Format, b: string, p: int, name: string, comment: Option<string>, next: int)
    requires Ended(b) && 0 <= p < |b| && 0 <= next < |b| && Found(f, b, p) == Found(f, b, next)
    ensures Splits(f, b, p, P.SectionFound(name, comment, next))
  {
  }

  lemma FoundBracket(f: Format, b: string, q: int, n: int)
    requires Ended(b) && 0 <= q < |b| && b[q] == '[' && n == Scan(b, q + 1, NotSpace)
    ensures Found(f, b, q) == Found(f, b, Scan(b, n, LineEnd))
  {
    assert Scan(b, q, NotSpace) == q;
  }

  lemma FoundKey(f: Format, b: string, q: int, s: P.SectionAt, comment: Option<string>)
    requires Ended(b) && 0 <= q < |b| && (s.Raw? ==> 0 <= s.at <= q)
    requires !IsSpace(b[q]) && !IsComment(b[q]) && b[q] != '[' && b[q] != NUL
    requires F.GoesOnAt(b, q, s, comment).None?
    ensures Splits(f, b, q, P.NextEntry(f, b, q, s, comment))
  {
    var e := Scan(b, q, Equals);
    assert Scan(b, q, NotSpace) == q;
    F.AtKey(f, b, q, s, comment, e);
  }

  /** Loading puts no more into a store than is found in the text. */
  lemma {:induction false} LoadGains(f: Format, b: string, p: int, section: string, st: Store)
    requires Ended(b) && 0 <= p < |b|
    ensures Stored(f, D.LoadFrom(f, b, p, section, st).sections) <= Stored(f, st.sections) + Found(f, b, p)
    decreases |b| - p
  {
    FoundNext(f, b, p, P.Named(section), None);
    match P.NextEntry(f, b, p, P.Named(section), None)
    case NoMore =>
    case SectionFound(name, comment, next) =>
      AddEntryGains(f, st, name, None, None, comment);
      LoadGains(f, b, next, name, S.AddEntry(f, st, name, None, None, comment, false));
    case KeyFound(name, key, value, comment, next) =>
      AddEntryGains(f, st, name, Some(key), Some(value), comment);
      LoadGains(f, b, next, name, S.AddEntry(f, st, name, Some(key), Some(value), comment, false));
  }

  /** Loading keeps the store sound. */
  lemma {:induction false} LoadOk(f: Format, b: string, p: int, section: string, st: Store)
    requires Ended(b) && 0 <= p < |b| && S.Ok(f, st) == true
    ensures S.Ok(f, D.LoadFrom(f, b, p, section, st)) == true
    decreases |b| - p
  {
    match P.NextEntry(f, b, p, P.Named(section), None)
    case NoMore =>
    case SectionFound(name, comment, next) =>
      S.AddEntryOk(f, st, name, None, None, comment, false);
      LoadOk(f, b, next, name, S.AddEntry(f, st, name, None, None, comment, false));
    case KeyFound(name, key, value, comment, next) =>
      S.AddEntryOk(f, st, name, Some(key), Some(value), comment, false);
      LoadOk(f, b, next, name, S.AddEntry(f, st, name, Some(key), Some(value), comment, false));
  }

  /** So the content of an empty store that a text is loaded into is no more than what is found in the text. */
  lemma LoadedContent(f: Format, text: string)
    requires text != []
    ensures S.Ok(f, D.LoadPlain(f, text, Store([], 0), None).0)
    ensures Sizes(f, Content(f, D.LoadPlain(f, text, Store([], 0), None).0)) <= Found(f, text + [NUL], 0)
  {
    var b := text + [NUL];
    var p := if IsComment(b[0]) then Comments(b, 0, false).1 else 0;
    LeadingComment(f, b);
    LoadGains(f, b, p, "", Store([], 0));
    S.EmptyOk(f);
    LoadOk(f, b, p, "", Store([], 0));
    ContentGains(f, D.LoadFrom(f, b, p, "", Store([], 0)));
  }

  lemma LeadingComment(f: Format, b: string)
    requires Ended(b)
    ensures IsComment(b[0]) ==> Found(f, b, Comments(b, 0, false).1) == Found(f, b, 0)
  {
    if IsComment(b[0]) {
      assert Scan(b, 0, NotSpace) == 0;
      FoundComments(f, b, 0, false);
    }
  }
}
