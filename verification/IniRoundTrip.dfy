/** Loading what Save has written gives back the same content. A clause that says `P(..) == true` states P as one
    fact, which the verifier does not unfold there. */
module IniRoundTrip {
  import opened Options
  import opened IniCompare
  import opened IniFormat
  import opened IniStore
  import opened IniPrint
  import opened IniDocument
  import opened IniContent
  import opened IniBuild
  import opened IniGrammar
  import opened IniSaved
  import G = IniGains
  import M = IniMarks
  import S = IniSections

  /** All values of a key stand together, and without multi-key there is one. */
  ghost predicate Grouped(f: Format, items: seq<Item>) {
    forall n :: 0 <= n < |items| ==> Follows(f, items[..n], items[n].key)
  }

  ghost predicate NamesDiffer(f: Format, sects: seq<Sect>) {
    forall i, j :: 0 <= i < j < |sects| ==> !Same(f.noCase, sects[i].name, sects[j].name)
  }

  ghost predicate AllGrouped(f: Format, sects: seq<Sect>) {
    forall i :: 0 <= i < |sects| ==> Grouped(f, sects[i].items)
  }

  /** Different names, and a key and no comment in the section without a name, which is the first if there is one. */
  ghost predicate Plain(f: Format, sects: seq<Sect>) {
    && NamesDiffer(f, sects) && AllGrouped(f, sects)
    && (forall i :: 0 <= i < |sects| && sects[i].name == [] ==>
        i == 0 && sects[i].items != [] && sects[i].comment.None?)
  }

  lemma AppliesItem(f: Format, st: Store, name: string, items: seq<Item>, n: nat, t: Store)
    requires n < |items|
    requires t == S.AddEntry(f, st, name, Some(items[n].key), Some(items[n].value), items[n].comment, false)
    ensures Apply(f, st, ItemCalls(name, items[n..])) == Apply(f, t, ItemCalls(name, items[n + 1..]))
    ensures items[..n + 1] == items[..n] + [items[n]]
  {
    assert items[n..][1..] == items[n + 1..];
    AppliesFirst(f, st, ItemCall(name, items[n]), ItemCalls(name, items[n + 1..]));
  }

  lemma {:induction false} FillsAll(f: Format, st: Store, done: seq<Sect>, name: string, comment: Option<string>,
                                    items: seq<Item>, n: nat)
    requires n <= |items| && Filling(f, st, done, name, comment, items[..n]) == true && Grouped(f, items) == true
    ensures Filling(f, Apply(f, st, ItemCalls(name, items[n..])), done, name, comment, items) == true
    decreases |items| - n
  {
    if n == |items| {
      assert items[..n] == items && items[n..] == [];
    } else {
      var i := items[n];
      var t := S.AddEntry(f, st, name, Some(i.key), Some(i.value), i.comment, false);
      FillsSection(f, st, done, name, comment, items[..n], i);
      AppliesItem(f, st, name, items, n, t);
      FillsAll(f, t, done, name, comment, items, n + 1);
    }
  }

  /** The first key of a section that is not there yet creates it. */
  lemma FirstKeyStarts(f: Format, st: Store, name: string, items: seq<Item>)
    requires items != []
    ensures Apply(f, st, ItemCalls(name, items)) == Apply(f, S.WithSection(f, st, name, None), ItemCalls(name, items))
  {
    var i, t := items[0], S.WithSection(f, st, name, None);
    assert S.WithSection(f, t, name, None) == t;
    AppliesFirst(f, st, ItemCall(name, i), ItemCalls(name, items[1..]));
    AppliesFirst(f, t, ItemCall(name, i), ItemCalls(name, items[1..]));
  }

  lemma HeaderStarts(f: Format, st: Store, s: Sect)
    requires s.name != []
    ensures Apply(f, st, HeaderCalls(s)) == S.WithSection(f, st, s.name, s.comment)
  {
    AppliesFirst(f, st, Call(s.name, None, None, s.comment), []);
    assert HeaderCalls(s) == [Call(s.name, None, None, s.comment)] + [];
  }

  lemma BuildsSect(f: Format, st: Store, done: seq<Sect>, s: Sect)
    requires Built(f, st, done) && NewName(f, done, s.name) && Grouped(f, s.items)
    requires s.name == [] ==> s.items != [] && s.comment.None?
    ensures Built(f, Apply(f, Apply(f, st, HeaderCalls(s)), ItemCalls(s.name, s.items)), done + [s]) == true
  {
    StartsSection(f, st, done, s.name, s.comment);
    assert s.items[..0] == [] && s.items[0..] == s.items;
    FillsAll(f, S.WithSection(f, st, s.name, s.comment), done, s.name, s.comment, s.items, 0);
    assert s == Sect(s.name, s.comment, s.items);
    if s.name == [] {
      FirstKeyStarts(f, st, s.name, s.items);
    } else {
      HeaderStarts(f, st, s);
    }
  }

  lemma NextNameIsNew(f: Format, sects: seq<Sect>, n: nat)
    requires NamesDiffer(f, sects) && n < |sects|
    ensures NewName(f, sects[..n], sects[n].name)
  {
  }

  lemma AppliesNext(f: Format, st: Store, sects: seq<Sect>, n: nat, t: Store)
    requires n < |sects|
    requires t == Apply(f, Apply(f, st, HeaderCalls(sects[n])), ItemCalls(sects[n].name, sects[n].items))
    ensures Apply(f, st, SectCalls(sects[n..])) == Apply(f, t, SectCalls(sects[n + 1..]))
    ensures sects[..n + 1] == sects[..n] + [sects[n]]
  {
    assert sects[n..][1..] == sects[n + 1..] && sects[n..][0] == sects[n];
    AppliesSect(f, st, sects[n..]);
  }

  lemma {:induction false} BuildsAll(f: Format, st: Store, sects: seq<Sect>, n: nat)
    requires n <= |sects| && Built(f, st, sects[..n]) == true && Plain(f, sects) == true
    ensures Built(f, Apply(f, st, SectCalls(sects[n..])), sects) == true
    decreases |sects| - n
  {
    if n == |sects| {
      assert sects[..n] == sects && sects[n..] == [];
    } else {
      var s := sects[n];
      NextNameIsNew(f, sects, n);
      BuildsSect(f, st, sects[..n], s);
      var t := Apply(f, Apply(f, st, HeaderCalls(s)), ItemCalls(s.name, s.items));
      AppliesNext(f, st, sects, n, t);
      BuildsAll(f, t, sects, n + 1);
    }
  }

  lemma SectsAre(f: Format, st: Store, es: seq<Entry>, sects: seq<Sect>)
    requires |es| == |sects| && forall i :: 0 <= i < |sects| ==> SectOf(f, st, es[i]) == sects[i]
    ensures SectsOf(f, st, es) == sects
  {
    var r := SectsOf(f, st, es);
    forall i | 0 <= i < |sects| ensures r[i] == sects[i] {
      SectAt(f, st, es, i);
    }
  }

  /** The section without a name already is where it belongs. */
  lemma EmptyStays(es: seq<Entry>)
    requires forall i :: 0 < i < |es| ==> es[i].item != []
    ensures EmptyFirst(es) == es
  {
    if EmptyAt(es) < |es| {
      assert EmptyAt(es) == 0;
    }
  }

  lemma BuiltContent(f: Format, st: Store, sects: seq<Sect>)
    requires Built(f, st, sects) && Plain(f, sects)
    ensures Content(f, st) == sects
  {
    var es := SectionEntries(f, st);
    forall i | 0 < i < |es| ensures es[i].item != [] {
      assert SectOf(f, st, es[i]) == sects[i];
    }
    EmptyStays(es);
    SectsAre(f, st, es, sects);
  }

  lemma StartsEmpty(f: Format)
    ensures Built(f, Store([], 0), [])
  {
    S.EmptyOk(f);
  }

  /** The calls for a plain content, made on an empty store, give a store of that content. */
  lemma CallsBuild(f: Format, sects: seq<Sect>)
    requires Plain(f, sects)
    ensures var st := Apply(f, Store([], 0), SectCalls(sects)); Content(f, st) == sects && S.Ok(f, st)
  {
    StartsEmpty(f);
    assert sects[..0] == [] && sects[0..] == sects;
    BuildsAll(f, Store([], 0), sects, 0);
    BuiltContent(f, Apply(f, Store([], 0), SectCalls(sects)), sects);
  }

  // ------------------------------------------------------------------ what a sound store has to offer

  lemma UniqueApart<V>(noCase: bool, m: seq<Pair<V>>, i: nat, j: nat)
    requires Unique(noCase, m) && i < j < |m|
    ensures !Same(noCase, m[i].entry.item, m[j].entry.item)
    decreases |m|
  {
    UniqueTail(noCase, m);
    if i == 0 {
      SameIsFoldedEqual(noCase, m[0].entry.item, m[j].entry.item);
      SameIsFoldedEqual(noCase, m[j].entry.item, m[0].entry.item);
    } else {
      UniqueApart(noCase, m[1..], i - 1, j - 1);
    }
  }

  /** Entries with different orders have different names. */
  lemma ListedApart<V>(noCase: bool, m: seq<Pair<V>>, a: Entry, b: Entry)
    requires Unique(noCase, m) && a in Entries(m) && b in Entries(m) && a.order != b.order
    ensures !Same(noCase, a.item, b.item)
  {
    var i :| 0 <= i < |Entries(m)| && Entries(m)[i] == a;
    var j :| 0 <= j < |Entries(m)| && Entries(m)[j] == b;
    EntriesAt(m, i);
    EntriesAt(m, j);
    SameIsFoldedEqual(noCase, a.item, b.item);
    SameIsFoldedEqual(noCase, b.item, a.item);
    if i < j {
      UniqueApart(noCase, m, i, j);
    } else {
      UniqueApart(noCase, m, j, i);
    }
  }

  lemma {:induction false} TallyIsEntries<V>(m: seq<Pair<V>>, o: int)
    ensures TallyEntries(Entries(m), o) == Tally(m, o)
    decreases |m|
  {
    if m != [] {
      TallyIsEntries(m[1..], o);
    }
  }

  lemma ByOrderApart<V>(noCase: bool, m: seq<Pair<V>>, n: int, i: nat, j: nat)
    requires Unique(noCase, m) && (forall o :: Tally(m, o) <= 1) && i < j < |ByOrder(Entries(m), n)|
    ensures !Same(noCase, ByOrder(Entries(m), n)[i].item, ByOrder(Entries(m), n)[j].item)
  {
    var es := ByOrder(Entries(m), n);
    forall o ensures TallyEntries(Entries(m), o) <= 1 {
      TallyIsEntries(m, o);
      assert Tally(m, o) <= 1;
    }
    ByOrderSorted(Entries(m), n);
    assert es[i] in es && es[j] in es;
    ByOrderHas(Entries(m), n, es[i]);
    ByOrderHas(Entries(m), n, es[j]);
    ListedApart(noCase, m, es[i], es[j]);
  }

  lemma {:induction false} TallySections(m: S.Sections, o: int)
    ensures Tally(m, o) <= S.TallyAll(m, o)
    decreases |m|
  {
    if m != [] {
      TallySections(m[1..], o);
    }
  }

  lemma SectionTallies(f: Format, st: Store)
    requires S.Ok(f, st)
    ensures forall o :: Tally(st.sections, o) <= 1
  {
    forall o ensures Tally(st.sections, o) <= 1 {
      TallySections(st.sections, o);
      assert S.TallyAll(st.sections, o) <= 1;
    }
  }

  lemma KeyTallies(f: Format, st: Store, x: string)
    requires S.Ok(f, st)
    ensures forall o :: Tally(S.KeysOf(f, st, x), o) <= 1
  {
    var i := Find(f.noCase, st.sections, x);
    forall o ensures Tally(S.KeysOf(f, st, x), o) <= 1 {
      if i < |st.sections| {
        TallyAllHas(st.sections, i, o);
        assert S.TallyAll(st.sections, o) <= 1;
      }
    }
  }

  /** The keys of a section by order are different keys. */
  lemma KeyOrderApart(f: Format, st: Store, x: string)
    requires S.Ok(f, st)
    ensures KeysApart(f, KeyOrder(f, S.KeysOf(f, st, x), st.order))
  {
    var m := S.KeysOf(f, st, x);
    var all, es := AllKeys(f.noCase, m, None), KeyOrder(f, m, st.order);
    KeysAreOk(f, st, x);
    KeyTallies(f, st, x);
    FirstsApart(f.noCase, m, None);
    forall o ensures TallyEntries(all, o) <= 1 {
      FirstsTally(f.noCase, m, None, o);
      assert Tally(m, o) <= 1;
    }
    ByOrderSorted(all, st.order);
    forall i, j | 0 <= i < j < |es| ensures !Same(f.noCase, es[i].item, es[j].item) {
      assert es[i] in es && es[j] in es;
      ByOrderHas(all, st.order, es[i]);
      ByOrderHas(all, st.order, es[j]);
      DifferentFirsts(f, all, es[i], es[j]);
    }
  }

  lemma DifferentFirsts(f: Format, all: seq<Entry>, a: Entry, b: Entry)
    requires forall i, j :: 0 <= i < j < |all| ==> Less(f.noCase, all[i].item, all[j].item)
    requires a in all && b in all && a.order != b.order
    ensures !Same(f.noCase, a.item, b.item)
  {
    var i :| 0 <= i < |all| && all[i] == a;
    var j :| 0 <= j < |all| && all[j] == b;
    if i < j {
      assert Less(f.noCase, all[i].item, all[j].item);
    } else {
      assert Less(f.noCase, all[j].item, all[i].item);
    }
  }

  /** The values of one key. */
  ghost predicate OneRun(f: Format, run: seq<Item>, key: string) {
    run != [] && (f.multiKey || |run| == 1) && forall i :: 0 <= i < |run| ==> run[i].key == key
  }

  lemma GroupedMore(f: Format, items: seq<Item>, run: seq<Item>, key: string)
    requires Grouped(f, items) && OneRun(f, run, key) && NewKey(f, items, key)
    ensures Grouped(f, items + run)
  {
    var all := items + run;
    forall n | 0 <= n < |all| ensures Follows(f, all[..n], all[n].key) {
      if n < |items| {
        assert all[..n] == items[..n] && all[n] == items[n];
      } else if n == |items| {
        assert all[..n] == items && all[n] == run[0];
      } else {
        assert all[..n][n - 1] == run[n - 1 - |items|] && all[n] == run[n - |items|];
      }
    }
  }

  lemma {:induction false} RunKeys(key: string, run: KeyVal)
    ensures |ItemsOfRun(key, run)| == |run|
    ensures forall i :: 0 <= i < |run| ==> ItemsOfRun(key, run)[i].key == key
    decreases |run|
  {
    if run != [] {
      RunKeys(key, run[1..]);
    }
  }

  lemma KeyIsRun(f: Format, m: KeyVal, e: Entry)
    requires Named(f.noCase, m, e.item) != []
    ensures OneRun(f, ItemsOfKey(f, m, e), e.item)
  {
    RunKeys(e.item, ValuesOf(f, m, e.item));
  }

  ghost predicate KeyFrom(es: seq<Entry>, key: string) {
    exists j :: 0 <= j < |es| && es[j].item == key
  }

  ghost predicate KeysFrom(es: seq<Entry>, items: seq<Item>) {
    forall i :: 0 <= i < |items| ==> KeyFrom(es, items[i].key)
  }

  lemma KeyFromMore(es: seq<Entry>, e: Entry, key: string)
    requires KeyFrom(es, key) || key == e.item
    ensures KeyFrom(es + [e], key)
  {
    if KeyFrom(es, key) {
      var j :| 0 <= j < |es| && es[j].item == key;
      assert (es + [e])[j].item == key;
    } else {
      assert (es + [e])[|es|].item == key;
    }
  }

  lemma KeysFromMore(es: seq<Entry>, items: seq<Item>, e: Entry, run: seq<Item>)
    requires KeysFrom(es, items) && forall i :: 0 <= i < |run| ==> run[i].key == e.item
    ensures KeysFrom(es + [e], items + run)
  {
    var all := items + run;
    forall i | 0 <= i < |all| ensures KeyFrom(es + [e], all[i].key) {
      assert all[i] == if i < |items| then items[i] else run[i - |items|];
      KeyFromMore(es, e, all[i].key);
    }
  }

  lemma FromIsNew(f: Format, es: seq<Entry>, items: seq<Item>, e: Entry)
    requires KeysFrom(es, items) && forall i :: 0 <= i < |es| ==> !Same(f.noCase, es[i].item, e.item)
    ensures NewKey(f, items, e.item)
  {
    forall j | 0 <= j < |items| ensures !Same(f.noCase, items[j].key, e.item) {
      assert KeyFrom(es, items[j].key);
    }
  }

  lemma {:induction false} KeysGrouped(f: Format, m: KeyVal, es: seq<Entry>)
    requires KeysApart(f, es) && forall e :: e in es ==> Named(f.noCase, m, e.item) != []
    ensures Grouped(f, ItemsOfKeys(f, m, es)) && KeysFrom(es, ItemsOfKeys(f, m, es))
    decreases |es|
  {
    if es != [] {
      var init, last := es[..|es| - 1], es[|es| - 1];
      assert last in es && init + [last] == es;
      forall e | e in init ensures e in es {
      }
      KeysGrouped(f, m, init);
      KeyIsRun(f, m, last);
      forall i | 0 <= i < |init| ensures !Same(f.noCase, init[i].item, last.item) {
        assert es[i] == init[i] && es[|es| - 1] == last;
      }
      FromIsNew(f, init, ItemsOfKeys(f, m, init), last);
      GroupedMore(f, ItemsOfKeys(f, m, init), ItemsOfKey(f, m, last), last.item);
      KeysFromMore(init, ItemsOfKeys(f, m, init), last, ItemsOfKey(f, m, last));
    }
  }

  lemma SectionGrouped(f: Format, st: Store, x: string)
    requires S.Ok(f, st)
    ensures Grouped(f, ItemsOf(f, S.KeysOf(f, st, x), st.order))
  {
    var m := S.KeysOf(f, st, x);
    var es := KeyOrder(f, m, st.order);
    KeyOrderApart(f, st, x);
    forall e | e in es ensures Named(f.noCase, m, e.item) != [] {
      OrderedKey(f, m, st.order, e);
    }
    KeysGrouped(f, m, es);
  }

  function Position(es: seq<Entry>, i: nat): nat {
    var k := EmptyAt(es);
    if k == |es| || i > k then i else if i == 0 then k else i - 1
  }

  lemma MovedFrom(es: seq<Entry>, i: nat)
    requires i < |es|
    ensures |EmptyFirst(es)| == |es| && Position(es, i) < |es| && EmptyFirst(es)[i] == es[Position(es, i)]
  {
  }

  lemma SectionsDiffer(f: Format, st: Store, i: nat, j: nat)
    requires S.Ok(f, st) && i < j < |SectionEntries(f, st)|
    ensures |EmptyFirst(SectionEntries(f, st))| == |SectionEntries(f, st)|
    ensures !Same(f.noCase, EmptyFirst(SectionEntries(f, st))[i].item, EmptyFirst(SectionEntries(f, st))[j].item)
  {
    var es := SectionEntries(f, st);
    MovedFrom(es, i);
    MovedFrom(es, j);
    SectionTallies(f, st);
    var a, b := Position(es, i), Position(es, j);
    if a < b {
      ByOrderApart(f.noCase, st.sections, st.order, a, b);
    } else {
      ByOrderApart(f.noCase, st.sections, st.order, b, a);
    }
  }

  /** The section without a name, if it comes, has a key. */
  ghost predicate EmptyHasKey(sects: seq<Sect>) {
    sects != [] && sects[0].name == [] ==> sects[0].items != []
  }

  lemma ContentPlain(f: Format, st: Store)
    requires S.Ok(f, st)
    ensures NamesDiffer(f, Content(f, st)) && AllGrouped(f, Content(f, st))
  {
    var sects, es := Content(f, st), EmptyFirst(SectionEntries(f, st));
    forall i, j | 0 <= i < j < |sects| ensures !Same(f.noCase, sects[i].name, sects[j].name) {
      SectAt(f, st, es, i);
      SectAt(f, st, es, j);
      SectionsDiffer(f, st, i, j);
    }
    forall i | 0 <= i < |sects| ensures Grouped(f, sects[i].items) {
      SectAt(f, st, es, i);
      SectionGrouped(f, st, es[i].item);
    }
  }

  lemma EmptyIsFirst(es: seq<Entry>, i: nat)
    requires i < |es| && EmptyFirst(es)[i].item == []
    ensures |EmptyFirst(es)| == |es| && EmptyFirst(es)[0].item == []
  {
    MovedFrom(es, i);
  }

  lemma OnlyFirstEmpty(f: Format, st: Store, i: nat)
    requires NamesDiffer(f, Content(f, st)) && 0 < i < |Content(f, st)|
    ensures Content(f, st)[i].name != []
  {
    var sects, es := Content(f, st), SectionEntries(f, st);
    SectAt(f, st, EmptyFirst(es), i);
    SectAt(f, st, EmptyFirst(es), 0);
    LessIrreflexive(f.noCase, []);
    assert !Same(f.noCase, sects[0].name, sects[i].name);
    if sects[i].name == [] {
      EmptyIsFirst(es, i);
    }
  }

  // ------------------------------------------------------------------ the round trip

  /** Save, with a signature or without, and then load into an empty store. */
  function Reloaded(f: Format, st: Store, fileComment: Option<string>, signed: bool): (Store, Option<string>) {
    LoadText(f, Signed(signed, SaveText(f, fileComment, Content(f, st))), Store([], 0), None)
  }

  lemma SignedBack(text: string)
    ensures Unmarked(Signed(true, text)) == text
  {
    assert (SIGNATURE + text)[..3] == SIGNATURE && (SIGNATURE + text)[3..] == text;
  }

  /** A section without name and keys makes no calls. */
  lemma EmptyLeavesNothing(f: Format, sects: seq<Sect>, st: Store)
    requires sects != [] && sects[0] == Sect([], None, [])
    ensures SectsText(f, sects, false) == SectsText(f, sects[1..], true)
    ensures Apply(f, st, SectCalls(sects)) == Apply(f, st, SectCalls(sects[1..]))
  {
    assert SectText(f, sects[0], false) == "" + "" + "" + "";
    assert ([] + []) + SectCalls(sects[1..]) == SectCalls(sects[1..]);
  }

  lemma RestPlain(f: Format, sects: seq<Sect>)
    requires NamesDiffer(f, sects) && AllGrouped(f, sects) && SectsSafe(f, sects) && OnlyFirstUnnamed(sects)
    ensures sects != [] ==> Plain(f, sects[1..])
    ensures EmptyHasKey(sects) ==> Plain(f, sects)
  {
    forall i | 0 <= i < |sects| ensures sects[i].name == [] ==> sects[i].comment.None? {
      assert SectSafe(f, sects[i]);
    }
  }

  /** The content of the calls. */
  lemma CallsContent(f: Format, sects: seq<Sect>)
    requires NamesDiffer(f, sects) && AllGrouped(f, sects) && SectsSafe(f, sects) && OnlyFirstUnnamed(sects)
    ensures var st := Apply(f, Store([], 0), SectCalls(sects));
      (Content(f, st) == sects <==> EmptyHasKey(sects)) && S.Ok(f, st)
  {
    RestPlain(f, sects);
    if EmptyHasKey(sects) {
      CallsBuild(f, sects);
    } else {
      assert SectSafe(f, sects[0]);
      EmptyLeavesNothing(f, sects, Store([], 0));
      CallsBuild(f, sects[1..]);
      assert |sects[1..]| != |sects|;
    }
  }

  /** With a comment of the file, or without a marked key, no signature is found. */
  lemma NotMarked(f: Format, fileComment: Option<string>, sects: seq<Sect>)
    requires FileCommentSafe(fileComment) && SectsSafe(f, sects) && (fileComment.Some? || !M.MarkedFirst(sects))
    ensures !Marked(SaveText(f, fileComment, sects))
  {
    if fileComment.Some? {
      PiecesJoin(fileComment.value);
      var text := SaveText(f, fileComment, sects);
      assert Pieces("") == [""];
      FirstPieceFirst(fileComment.value);
      assert text[0] == fileComment.value[0];
    } else {
      M.MarkedIffFirst(f, sects);
    }
  }

  lemma FirstPieceFirst(text: string)
    requires text != "" && Pieces(text)[0] != ""
    ensures Pieces(text)[0][0] == text[0]
  {
  }

  lemma AnythingLoadedIsOk(f: Format, text: string)
    ensures S.Ok(f, LoadText(f, text, Store([], 0), None).0)
  {
    S.EmptyOk(f);
    if Unmarked(text) != [] {
      G.LoadedContent(f, Unmarked(text));
    }
  }

  /** The round trip for a content whose parts are safe and different, with the comment of the file. */
  lemma SectsRoundTrip(f: Format, fileComment: Option<string>, sects: seq<Sect>, signed: bool)
    requires NamesDiffer(f, sects) && AllGrouped(f, sects) && SectsSafe(f, sects) && OnlyFirstUnnamed(sects)
    requires FileCommentSafe(fileComment)
    ensures var r := LoadText(f, Signed(signed, SaveText(f, fileComment, sects)), Store([], 0), None);
      && (Content(f, r.0) == sects && r.1 == fileComment <==>
          && EmptyHasKey(sects) && !Misplaced(fileComment, sects)
          && (signed || fileComment.Some? || !M.MarkedFirst(sects)))
      && S.Ok(f, r.0)
  {
    var text := SaveText(f, fileComment, sects);
    AnythingLoadedIsOk(f, Signed(signed, text));
    CallsContent(f, sects);
    SavedLoads(f, fileComment, sects, Store([], 0));
    if signed {
      SignedBack(text);
    } else if fileComment.Some? || !M.MarkedFirst(sects) {
      NotMarked(f, fileComment, sects);
    } else {
      M.MarkedLost(f, sects);
    }
  }

  /** The main result. If every section name, key, value and comment is safe, a store with its file comment comes back
      from its saved text with the same sections, keys, values and comments in the same order exactly if these three
      hold: the section without a name, if there is one, has a key; the file has a comment or its first section has
      none; and the text starts with a signature or a comment, or its first key does not begin like a signature. And
      saving again then gives the same text. */
  lemma RoundTrip(f: Format, st: Store, fileComment: Option<string>, signed: bool)
    requires S.Ok(f, st) && SectsSafe(f, Content(f, st)) && FileCommentSafe(fileComment)
    ensures var r, sects := Reloaded(f, st, fileComment, signed), Content(f, st);
      (Content(f, r.0) == sects && r.1 == fileComment <==>
       && EmptyHasKey(sects) && !Misplaced(fileComment, sects)
       && (signed || fileComment.Some? || !M.MarkedFirst(sects)))
    ensures S.Ok(f, Reloaded(f, st, fileComment, signed).0)
    ensures var r, sects := Reloaded(f, st, fileComment, signed), Content(f, st);
      EmptyHasKey(sects) && !Misplaced(fileComment, sects) && (signed || fileComment.Some? || !M.MarkedFirst(sects)) ==>
        SaveText(f, r.1, Content(f, r.0)) == SaveText(f, fileComment, sects)
  {
    var sects := Content(f, st);
    ContentPlain(f, st);
    forall i | 0 < i < |sects| ensures sects[i].name != [] {
      OnlyFirstEmpty(f, st, i);
    }
    SectsRoundTrip(f, fileComment, sects, signed);
  }

  function OneKey(key: string): seq<Sect> {
    [Sect([], None, [Item(key, "v", None)])]
  }

  lemma OneKeySafe(f: Format, key: string)
    requires ItemSafe(f, Item(key, "v", None))
    ensures SectsSafe(f, OneKey(key)) && EmptyHasKey(OneKey(key))
  {
    assert SectSafe(f, OneKey(key)[0]);
  }

  lemma OneItemText(f: Format, key: string)
    ensures ItemsText(f, [Item(key, "v", None)]) == key + Separator(f) + "v\n"
  {
    var i := Item(key, "v", None);
    assert [i][1..] == [] && ItemsText(f, [i][1..]) == "";
    assert ItemText(f, i) == "" + key + Separator(f) + "v" + "\n";
  }

  lemma OneKeyText(f: Format, key: string)
    ensures SaveText(f, None, OneKey(key)) == key + Separator(f) + "v\n"
  {
    OneItemText(f, key);
    assert OneKey(key)[1..] == [] && SectsText(f, OneKey(key)[1..], true) == "";
    var items := ItemsText(f, OneKey(key)[0].items);
    assert SectText(f, OneKey(key)[0], false) == "" + "" + "" + items == items;
  }

  lemma ShortKeySafe(f: Format, key: string)
    requires key == "k" || key == SIGNATURE + "k"
    ensures ItemSafe(f, Item(key, "v", None))
  {
  }

  lemma Marking(mark: string, key: string, sep: string, rest: string)
    ensures (mark + key) + sep + rest == mark + (key + sep + rest)
  {
  }

  /** A key that loses its first three characters. */
  lemma MarkedKey(f: Format)
    ensures var key := SIGNATURE + "k";
      && SectsSafe(f, OneKey(key)) && EmptyHasKey(OneKey(key))
      && Content(f, LoadText(f, SaveText(f, None, OneKey(key)), Store([], 0), None).0) == OneKey("k")
  {
    ShortKeySafe(f, SIGNATURE + "k");
    ShortKeySafe(f, "k");
    OneKeySafe(f, SIGNATURE + "k");
    OneKeySafe(f, "k");
    OneKeyText(f, SIGNATURE + "k");
    OneKeyText(f, "k");
    Marking(SIGNATURE, "k", Separator(f), "v\n");
    SectsRoundTrip(f, None, OneKey("k"), true);
  }

  /** A comment of the first section that becomes the comment of the file. */
  lemma MisplacedComment(f: Format)
    ensures var sects := [Sect("s", Some(";c"), [])];
      && SectsSafe(f, sects) && EmptyHasKey(sects) && SaveText(f, None, sects) == ";c\n[s]\n"
      && LoadText(f, SaveText(f, None, sects), Store([], 0), None).1.Some?
  {
    var sects := [Sect("s", Some(";c"), [])];
    CommentIsSafe();
    assert SectSafe(f, sects[0]);
    MisplacedText(f, sects);
    SavedLoads(f, None, sects, Store([], 0));
  }

  lemma MisplacedText(f: Format, sects: seq<Sect>)
    requires sects == [Sect("s", Some(";c"), [])]
    ensures SaveText(f, None, sects) == ";c\n[s]\n"
  {
    assert sects[1..] == [] && SectsText(f, sects[1..], true) == "";
    assert SectText(f, sects[0], false) == "" + ";c\n" + "[s]\n" + "";
  }

  lemma CommentIsSafe()
    ensures CommentSafe(";c")
  {
    assert Pieces(";c") == [";c"];
  }
}
