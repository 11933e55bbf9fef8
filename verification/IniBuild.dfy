/** The content of a store after the calls of AddEntry that loading makes. A clause that says `P(..) == true` states P
    as one fact, which the verifier does not unfold there. */
module IniBuild {
  import opened Options
  import opened IniCompare
  import opened IniFormat
  import opened IniStore
  import opened IniPrint
  import opened IniSections
  import opened IniContent

  lemma {:induction false} EntriesConcat<V>(a: seq<Pair<V>>, b: seq<Pair<V>>)
    ensures Entries(a + b) == Entries(a) + Entries(b)
    decreases |a|
  {
    if a == [] {
      assert a + b == b;
    } else {
      assert (a + b)[1..] == a[1..] + b;
      EntriesConcat(a[1..], b);
    }
  }

  lemma {:induction false} EntriesAt<V>(m: seq<Pair<V>>, i: nat)
    requires i < |m|
    ensures Entries(m)[i] == m[i].entry
    decreases |m|
  {
    if i > 0 {
      EntriesAt(m[1..], i - 1);
    }
  }

  lemma EntriesInsert<V>(noCase: bool, m: seq<Pair<V>>, p: Pair<V>)
    ensures var u := Upper(noCase, m, p.entry.item);
            Entries(m) == Entries(m[..u]) + Entries(m[u..])
              && Entries(Insert(noCase, m, p)) == Entries(m[..u]) + [p.entry] + Entries(m[u..])
  {
    var u := Upper(noCase, m, p.entry.item);
    EntriesConcat(m[..u], m[u..]);
    assert m == m[..u] + m[u..];
    EntriesConcat(m[..u] + [p], m[u..]);
    EntriesConcat(m[..u], [p]);
    assert Entries([p]) == [p.entry];
  }

  ghost predicate Below<V>(m: seq<Pair<V>>, n: int) {
    forall i :: 0 <= i < |m| ==> m[i].entry.order <= n
  }

  lemma BelowEntries<V>(m: seq<Pair<V>>, n: int)
    requires Below(m, n)
    ensures forall e :: e in Entries(m) ==> e.order <= n
  {
    forall e | e in Entries(m) ensures e.order <= n {
      var i :| 0 <= i < |Entries(m)| && Entries(m)[i] == e;
      EntriesAt(m, i);
    }
  }

  /** An entry inserted with a higher order comes last by order. */
  lemma NewestLast<V>(noCase: bool, m: seq<Pair<V>>, p: Pair<V>, n: int)
    requires Below(m, n) && 0 <= n < p.entry.order
    ensures ByOrder(Entries(Insert(noCase, m, p)), p.entry.order) == ByOrder(Entries(m), n) + [p.entry]
  {
    var u := Upper(noCase, m, p.entry.item);
    EntriesInsert(noCase, m, p);
    BelowEntries(m, n);
    ByOrderNewest(Entries(m[..u]), p.entry, Entries(m[u..]), n);
  }

  // ------------------------------------------------------------------ one section

  /** The keys that are listed are entries of the section, in the order of their names. */
  lemma {:induction false} FirstsApart(noCase: bool, m: KeyVal, last: Option<string>)
    requires Sorted(noCase, m)
    ensures forall i :: 0 <= i < |AllKeys(noCase, m, last)| && last.Some? ==>
      Less(noCase, last.value, AllKeys(noCase, m, last)[i].item)
    ensures forall i, j :: 0 <= i < j < |AllKeys(noCase, m, last)| ==>
      Less(noCase, AllKeys(noCase, m, last)[i].item, AllKeys(noCase, m, last)[j].item)
    decreases |m|
  {
    if m != [] {
      if last.None? || Less(noCase, last.value, m[0].entry.item) {
        var rest := AllKeys(noCase, m[1..], Some(m[0].entry.item));
        FirstsApart(noCase, m[1..], Some(m[0].entry.item));
        forall i | 0 <= i < |rest| && last.Some? ensures Less(noCase, last.value, rest[i].item) {
          LessTransitive(noCase, last.value, m[0].entry.item, rest[i].item);
        }
      } else {
        FirstsApart(noCase, m[1..], last);
      }
    }
  }

  lemma {:induction false} FirstsListed(noCase: bool, m: KeyVal, last: Option<string>, e: Entry)
    requires e in AllKeys(noCase, m, last)
    ensures e in Entries(m) && Named(noCase, m, e.item) != []
    decreases |m|
  {
    LessIrreflexive(noCase, e.item);
    if e != m[0].entry {
      FirstsListed(noCase, m[1..], if last.None? || Less(noCase, last.value, m[0].entry.item)
                                   then Some(m[0].entry.item) else last, e);
    }
  }

  lemma {:induction false} FirstsTally(noCase: bool, m: KeyVal, last: Option<string>, o: int)
    ensures TallyEntries(AllKeys(noCase, m, last), o) <= Tally(m, o)
    decreases |m|
  {
    if m != [] {
      FirstsTally(noCase, m[1..], if last.None? || Less(noCase, last.value, m[0].entry.item)
                                  then Some(m[0].entry.item) else last, o);
    }
  }

  lemma InsertFirst<V>(noCase: bool, m: seq<Pair<V>>, p: Pair<V>)
    ensures m == [] || Less(noCase, p.entry.item, m[0].entry.item) ==> Insert(noCase, m, p) == [p] + m
    ensures m != [] && !Less(noCase, p.entry.item, m[0].entry.item) ==>
      Insert(noCase, m, p) == [m[0]] + Insert(noCase, m[1..], p)
  {
  }

  function NextLast(noCase: bool, last: Option<string>, name: string): Option<string> {
    if last.None? || Less(noCase, last.value, name) then Some(name) else last
  }

  lemma FirstsStep(noCase: bool, p: Pair<string>, m: KeyVal, last: Option<string>)
    ensures AllKeys(noCase, [p] + m, last)
      == (if last.None? || Less(noCase, last.value, p.entry.item) then [p.entry] else [])
         + AllKeys(noCase, m, NextLast(noCase, last, p.entry.item))
  {
    assert ([p] + m)[1..] == m;
  }

  /** A new key is listed at its place. */
  lemma {:induction false} FirstsNew(noCase: bool, m: KeyVal, p: Pair<string>, last: Option<string>)
    returns (a: seq<Entry>, b: seq<Entry>)
    requires Sorted(noCase, m) && NotIn(noCase, m, p.entry.item)
    requires last.Some? ==> Less(noCase, last.value, p.entry.item)
    ensures AllKeys(noCase, m, last) == a + b && AllKeys(noCase, Insert(noCase, m, p), last) == a + [p.entry] + b
    decreases |m|
  {
    InsertFirst(noCase, m, p);
    if m == [] || Less(noCase, p.entry.item, m[0].entry.item) {
      a, b := [], AllKeys(noCase, m, last);
      FirstComes(noCase, m, p, last);
    } else {
      var head := if last.None? || Less(noCase, last.value, m[0].entry.item) then [m[0].entry] else [];
      var a', b' := FirstsNew(noCase, m[1..], p, NextLast(noCase, last, m[0].entry.item));
      a, b := head + a', b';
      assert m == [m[0]] + m[1..];
      FirstsStep(noCase, m[0], m[1..], last);
      FirstsStep(noCase, m[0], Insert(noCase, m[1..], p), last);
      Around(head, a', [p.entry], b');
    }
  }

  lemma Around(head: seq<Entry>, a: seq<Entry>, e: seq<Entry>, b: seq<Entry>)
    ensures head + (a + e + b) == (head + a) + e + b && head + (a + b) == (head + a) + b
  {
  }

  lemma FirstComes(noCase: bool, m: KeyVal, p: Pair<string>, last: Option<string>)
    requires m == [] || Less(noCase, p.entry.item, m[0].entry.item)
    requires last.Some? ==> Less(noCase, last.value, p.entry.item)
    ensures AllKeys(noCase, [p] + m, last) == [] + [p.entry] + AllKeys(noCase, m, last)
    ensures AllKeys(noCase, m, last) == [] + AllKeys(noCase, m, last)
  {
    if last.Some? && m != [] {
      LessTransitive(noCase, last.value, p.entry.item, m[0].entry.item);
    }
    FirstsStep(noCase, p, m, last);
  }

  ghost predicate IsIn(noCase: bool, m: KeyVal, name: string) {
    exists i :: 0 <= i < |m| && Same(noCase, m[i].entry.item, name)
  }

  /** One more entry of a key that is there is not listed. */
  lemma {:induction false} FirstsOld(noCase: bool, m: KeyVal, p: Pair<string>, last: Option<string>)
    requires Sorted(noCase, m) && (last.Some? ==> !Less(noCase, p.entry.item, last.value))
    requires IsIn(noCase, m, p.entry.item) || (last.Some? && Same(noCase, last.value, p.entry.item))
    ensures AllKeys(noCase, Insert(noCase, m, p), last) == AllKeys(noCase, m, last)
    decreases |m|
  {
    InsertFirst(noCase, m, p);
    if m == [] || Less(noCase, p.entry.item, m[0].entry.item) {
      FirstsStep(noCase, p, m, last);
      if IsIn(noCase, m, p.entry.item) {
        NoneAbove(noCase, m, p.entry.item);
      }
    } else {
      assert m == [m[0]] + m[1..];
      FirstsStep(noCase, m[0], m[1..], last);
      FirstsStep(noCase, m[0], Insert(noCase, m[1..], p), last);
      StillIn(noCase, m, p.entry.item, last);
      FirstsOld(noCase, m[1..], p, NextLast(noCase, last, m[0].entry.item));
    }
  }

  lemma NoneAbove(noCase: bool, m: KeyVal, name: string)
    requires Sorted(noCase, m) && m != [] && Less(noCase, name, m[0].entry.item)
    ensures !IsIn(noCase, m, name)
  {
    forall i | 0 <= i < |m| ensures !Same(noCase, m[i].entry.item, name) {
      if i > 0 {
        assert !Less(noCase, m[i].entry.item, m[0].entry.item);
      }
      NotLessTransitive(noCase, name, m[i].entry.item, m[0].entry.item);
    }
  }

  lemma StillIn(noCase: bool, m: KeyVal, name: string, last: Option<string>)
    requires m != [] && !Less(noCase, name, m[0].entry.item) && (last.Some? ==> !Less(noCase, name, last.value))
    requires IsIn(noCase, m, name) || (last.Some? && Same(noCase, last.value, name))
    ensures var next := NextLast(noCase, last, m[0].entry.item);
      !Less(noCase, name, next.value) && (IsIn(noCase, m[1..], name) || Same(noCase, next.value, name))
  {
    var first := m[0].entry.item;
    if last.Some? && Same(noCase, last.value, name) && Less(noCase, last.value, first) {
      SameOrder(noCase, last.value, name, first);
    } else if !(last.Some? && Same(noCase, last.value, name)) {
      var i :| 0 <= i < |m| && Same(noCase, m[i].entry.item, name);
      if i > 0 {
        assert m[1..][i - 1] == m[i];
      } else if last.Some? && !Less(noCase, last.value, first) {
        SameOrder(noCase, first, name, last.value);
      }
    }
  }

  lemma {:induction false} ItemsSame(f: Format, m: KeyVal, k: KeyVal, es: seq<Entry>)
    requires forall e :: e in es ==> Named(f.noCase, m, e.item) == Named(f.noCase, k, e.item)
    ensures ItemsOfKeys(f, m, es) == ItemsOfKeys(f, k, es)
    decreases |es|
  {
    if es != [] {
      assert es[|es| - 1] in es;
      forall e | e in es[..|es| - 1] ensures e in es {
      }
      ItemsSame(f, m, k, es[..|es| - 1]);
    }
  }

  ghost predicate NotIn<V>(noCase: bool, m: seq<Pair<V>>, name: string) {
    forall i :: 0 <= i < |m| ==> !Same(noCase, m[i].entry.item, name)
  }

  lemma EntriesNotIn<V>(noCase: bool, m: seq<Pair<V>>, name: string)
    requires NotIn(noCase, m, name)
    ensures forall e :: e in Entries(m) ==> !Same(noCase, e.item, name)
    ensures Find(noCase, m, name) == |m| && Named(noCase, m, name) == []
  {
    forall e | e in Entries(m) ensures !Same(noCase, e.item, name) {
      var i :| 0 <= i < |Entries(m)| && Entries(m)[i] == e;
      EntriesAt(m, i);
    }
    NamedNone(noCase, m, name);
  }

  lemma ItemOfNew(f: Format, p: Pair<string>, m: KeyVal)
    requires Named(f.noCase, m, p.entry.item) == [p]
    ensures ItemsOfKey(f, m, p.entry) == [Item(p.entry.item, p.value, p.entry.comment)]
  {
    assert [p][..1] == [p];
    assert ItemsOfRun(p.entry.item, [p])
      == [Item(p.entry.item, p.value, p.entry.comment)] + ItemsOfRun(p.entry.item, []);
  }

  lemma FirstsBelow(noCase: bool, m: KeyVal, n: int)
    requires Below(m, n)
    ensures forall e :: e in AllKeys(noCase, m, None) ==> e.order <= n
  {
    BelowEntries(m, n);
    forall e | e in AllKeys(noCase, m, None) ensures e.order <= n {
      FirstsListed(noCase, m, None, e);
    }
  }

  /** The keys by order, as they are saved. */
  function KeyOrder(f: Format, m: KeyVal, n: int): seq<Entry> {
    ByOrder(AllKeys(f.noCase, m, None), n)
  }

  lemma OrderedKey(f: Format, m: KeyVal, n: int, e: Entry)
    requires e in KeyOrder(f, m, n)
    ensures e in Entries(m) && Named(f.noCase, m, e.item) != []
  {
    ByOrderHas(AllKeys(f.noCase, m, None), n, e);
    FirstsListed(f.noCase, m, None, e);
  }

  /** A new key makes one more item, the last. */
  lemma NewKeyItem(f: Format, m: KeyVal, key: string, value: string, comment: Option<string>, n: int, order: int)
    requires KeysOk(f, m) && NotIn(f.noCase, m, key) && Below(m, n) && 0 <= n < order
    ensures var k := AddKey(f, m, key, value, comment, false, order);
      && ItemsOf(f, k, order) == ItemsOf(f, m, n) + [Item(key, value, comment)]
      && KeyOrder(f, k, order) == KeyOrder(f, m, n) + [Entry(key, comment, order)]
  {
    var p := Pair(Entry(key, comment, order), value);
    var k := Insert(f.noCase, m, p);
    EntriesNotIn(f.noCase, m, key);
    var a, b := FirstsNew(f.noCase, m, p, None);
    FirstsBelow(f.noCase, m, n);
    ByOrderNewest(a, p.entry, b, n);
    var es := KeyOrder(f, m, n);
    forall e | e in es ensures Named(f.noCase, k, e.item) == Named(f.noCase, m, e.item) {
      OrderedKey(f, m, n, e);
      NamedInsert(f.noCase, m, p, e.item);
    }
    ItemsSame(f, k, m, es);
    NamedInsert(f.noCase, m, p, key);
    LessIrreflexive(f.noCase, key);
    ItemOfNew(f, p, k);
    assert (es + [p.entry])[..|es|] == es;
  }

  lemma {:induction false} RunMore(key: string, run: KeyVal, p: Pair<string>)
    ensures ItemsOfRun(key, run + [p]) == ItemsOfRun(key, run) + [Item(key, p.value, p.entry.comment)]
    decreases |run|
  {
    if run == [] {
      assert [] + [p] == [p] && [p][1..] == [];
    } else {
      assert (run + [p])[1..] == run[1..] + [p];
      RunMore(key, run[1..], p);
    }
  }

  /** No two of the keys are the same. */
  ghost predicate KeysApart(f: Format, es: seq<Entry>) {
    forall i, j :: 0 <= i < j < |es| ==> !Same(f.noCase, es[i].item, es[j].item)
  }

  lemma KeyIsIn(f: Format, m: KeyVal, e: Entry)
    requires e in Entries(m)
    ensures IsIn(f.noCase, m, e.item) && Find(f.noCase, m, e.item) < |m|
  {
    var i :| 0 <= i < |Entries(m)| && Entries(m)[i] == e;
    EntriesAt(m, i);
    LessIrreflexive(f.noCase, e.item);
    FoundNamed(f.noCase, m, e.item);
    NamedHas(f.noCase, m, e.item, i);
  }

  /** With multi-key, one more value of the key that is listed last makes one more item, the last. */
  lemma OldKeyItem(f: Format, m: KeyVal, key: string, value: string, comment: Option<string>, n: int, order: int)
    requires KeysOk(f, m) && f.multiKey && Below(m, n) && 0 <= n < order
    requires KeyOrder(f, m, n) != [] && KeysApart(f, KeyOrder(f, m, n))
    requires KeyOrder(f, m, n)[|KeyOrder(f, m, n)| - 1].item == key
    ensures var k := AddKey(f, m, key, value, comment, false, order);
      && ItemsOf(f, k, order) == ItemsOf(f, m, n) + [Item(key, value, comment)]
      && KeyOrder(f, k, order) == KeyOrder(f, m, n)
  {
    var p := Pair(Entry(key, comment, order), value);
    var k, es := Insert(f.noCase, m, p), KeyOrder(f, m, n);
    var init, last := es[..|es| - 1], es[|es| - 1];
    OrderedKey(f, m, n, last);
    KeyIsIn(f, m, last);
    FirstsOld(f.noCase, m, p, None);
    FirstsBelow(f.noCase, m, n);
    ByOrderMore(AllKeys(f.noCase, m, None), n, order);
    forall e | e in init ensures Named(f.noCase, k, e.item) == Named(f.noCase, m, e.item) {
      var i :| 0 <= i < |init| && init[i] == e;
      assert es[i] == e && !Same(f.noCase, es[i].item, es[|es| - 1].item);
      NamedInsert(f.noCase, m, p, e.item);
      SameOrder2(f.noCase, e.item, key);
    }
    ItemsSame(f, k, m, init);
    LessIrreflexive(f.noCase, key);
    NamedInsert(f.noCase, m, p, key);
    RunMore(key, Named(f.noCase, m, key), p);
    Grouping(ItemsOfKeys(f, m, init), ItemsOfKey(f, m, last), [Item(key, value, comment)]);
  }

  lemma Grouping(a: seq<Item>, b: seq<Item>, c: seq<Item>)
    ensures a + (b + c) == (a + b) + c
  {
  }

  lemma SameOrder2(noCase: bool, a: string, b: string)
    ensures Same(noCase, a, b) == Same(noCase, b, a)
  {
  }

  lemma MoreItems(f: Format, m: KeyVal, n: int, more: int)
    requires Below(m, n) && n <= more
    ensures ItemsOf(f, m, more) == ItemsOf(f, m, n)
  {
    FirstsBelow(f.noCase, m, n);
    ByOrderMore(AllKeys(f.noCase, m, None), n, more);
  }

  // ------------------------------------------------------------------ the store

  lemma {:induction false} TallyAllHas(m: Sections, i: nat, o: int)
    requires i < |m|
    ensures TallyAll(m, o) >= (if m[i].entry.order == o then 1 else 0) + Tally(m[i].value, o)
    decreases |m|
  {
    if i > 0 {
      TallyAllHas(m[1..], i - 1, o);
    }
  }

  lemma OrdersBelow(f: Format, st: Store, x: string)
    requires Ok(f, st)
    ensures Below(st.sections, st.order) && Below(KeysOf(f, st, x), st.order)
    ensures forall i :: 0 <= i < |st.sections| ==> 1 <= st.sections[i].entry.order <= st.order
  {
    forall i | 0 <= i < |st.sections| ensures 1 <= st.sections[i].entry.order <= st.order {
      TallyAllHas(st.sections, i, st.sections[i].entry.order);
      assert TallyAll(st.sections, st.sections[i].entry.order) <= 1;
    }
    var i := Find(f.noCase, st.sections, x);
    if i < |st.sections| {
      var m := st.sections[i].value;
      forall k | 0 <= k < |m| ensures m[k].entry.order <= st.order {
        Tallied(m, k);
        TallyAllHas(st.sections, i, m[k].entry.order);
        assert TallyAll(st.sections, m[k].entry.order) <= 1;
      }
    }
  }

  /** Every section is listed by order. */
  lemma Listed(f: Format, st: Store, i: nat)
    requires Ok(f, st) && i < |st.sections|
    ensures st.sections[i].entry in SectionEntries(f, st)
  {
    OrdersBelow(f, st, "");
    EntriesAt(st.sections, i);
    assert Entries(st.sections)[i] in Entries(st.sections);
    ByOrderHas(Entries(st.sections), st.order, st.sections[i].entry);
  }

  /** The sections in load order are those of done. */
  ghost predicate Built(f: Format, st: Store, done: seq<Sect>) {
    && Ok(f, st) && |SectionEntries(f, st)| == |done|
    && forall i :: 0 <= i < |done| ==> SectOf(f, st, SectionEntries(f, st)[i]) == done[i]
  }

  ghost predicate Covers(m: KeyVal, items: seq<Item>) {
    forall i :: 0 <= i < |m| ==> Covered(m[i].entry, items)
  }

  ghost predicate NewName(f: Format, done: seq<Sect>, name: string) {
    forall i :: 0 <= i < |done| ==> !Same(f.noCase, done[i].name, name)
  }

  ghost predicate NewKey(f: Format, items: seq<Item>, key: string) {
    forall j :: 0 <= j < |items| ==> !Same(f.noCase, items[j].key, key)
  }

  /** The last item is of the key that is listed last. */
  ghost predicate LastIs(f: Format, m: KeyVal, n: int, items: seq<Item>) {
    var es := KeyOrder(f, m, n);
    && KeysApart(f, es)
    && (items != [] ==> es != [] && es[|es| - 1].item == items[|items| - 1].key)
  }

  ghost predicate Filled(f: Format, m: KeyVal, n: int, items: seq<Item>) {
    ItemsOf(f, m, n) == items && Covers(m, items) && LastIs(f, m, n, items)
  }

  /** ... followed by a section that is being filled. */
  ghost predicate Filling(f: Format, st: Store, done: seq<Sect>, name: string, comment: Option<string>,
                          items: seq<Item>) {
    && Built(f, st, done + [Sect(name, comment, items)]) && NewName(f, done, name)
    && HasSection(f, st, name) && Filled(f, KeysOf(f, st, name), st.order, items)
  }

  lemma NoSectionYet(f: Format, st: Store, done: seq<Sect>, name: string)
    requires Built(f, st, done) && NewName(f, done, name)
    ensures NotIn(f.noCase, st.sections, name) && !HasSection(f, st, name)
  {
    forall i | 0 <= i < |st.sections| ensures !Same(f.noCase, st.sections[i].entry.item, name) {
      Listed(f, st, i);
      var es := SectionEntries(f, st);
      var k :| 0 <= k < |es| && es[k] == st.sections[i].entry;
      assert SectOf(f, st, es[k]) == done[k];
    }
    EntriesNotIn(f.noCase, st.sections, name);
  }

  lemma SectStays(f: Format, st: Store, t: Store, e: Entry)
    requires Ok(f, st) && st.order <= t.order && KeysOf(f, t, e.item) == KeysOf(f, st, e.item)
    ensures SectOf(f, t, e) == SectOf(f, st, e)
  {
    OrdersBelow(f, st, e.item);
    MoreItems(f, KeysOf(f, st, e.item), st.order, t.order);
  }

  lemma KeysAreOk(f: Format, st: Store, x: string)
    requires Ok(f, st)
    ensures KeysOk(f, KeysOf(f, st, x))
  {
    if !HasSection(f, st, x) && !f.multiKey {
      assert Unique(f.noCase, KeysOf(f, st, x));
    }
  }

  lemma NoItems(f: Format, n: int)
    ensures ItemsOf(f, [], n) == [] && KeyOrder(f, [], n) == []
  {
    if n > 0 {
      ByOrderMore([], 0, n);
    }
  }

  lemma StartedEntries(f: Format, st: Store, done: seq<Sect>, name: string, comment: Option<string>)
    requires Built(f, st, done) && NewName(f, done, name)
    ensures var t := WithSection(f, st, name, comment);
            t.order == st.order + 1 && SectionEntries(f, t) == SectionEntries(f, st) + [Entry(name, comment, t.order)]
  {
    NoSectionYet(f, st, done, name);
    OrdersBelow(f, st, name);
    NewSectionListed(f, st, name, comment, st.order + 1);
  }

  lemma NewSectionListed(f: Format, st: Store, name: string, comment: Option<string>, order: int)
    requires !HasSection(f, st, name) && Below(st.sections, st.order) && order == st.order + 1 && st.order >= 0
    ensures WithSection(f, st, name, comment)
      == Store(Insert(f.noCase, st.sections, Pair(Entry(name, comment, order), [])), order)
    ensures SectionEntries(f, WithSection(f, st, name, comment))
      == SectionEntries(f, st) + [Entry(name, comment, order)]
  {
    NewestLast(f.noCase, st.sections, Pair(Entry(name, comment, order), []), st.order);
  }

  lemma OthersStay(f: Format, st: Store, done: seq<Sect>, name: string, comment: Option<string>, i: nat)
    requires Built(f, st, done) && NewName(f, done, name) && i < |done|
    ensures SectOf(f, WithSection(f, st, name, comment), SectionEntries(f, st)[i]) == done[i]
  {
    var e := SectionEntries(f, st)[i];
    assert SectOf(f, st, e) == done[i];
    SectionMeans(f, st, name, comment, e.item);
    StartedEntries(f, st, done, name, comment);
    SectStays(f, st, WithSection(f, st, name, comment), e);
  }

  lemma StartedSection(f: Format, st: Store, done: seq<Sect>, name: string, comment: Option<string>)
    requires Built(f, st, done) && NewName(f, done, name)
    ensures var t := WithSection(f, st, name, comment);
            HasSection(f, t, name) && KeysOf(f, t, name) == [] && Filled(f, KeysOf(f, t, name), t.order, [])
  {
    NoSectionYet(f, st, done, name);
    SectionMeans(f, st, name, comment, name);
    LessIrreflexive(f.noCase, name);
    NoItems(f, WithSection(f, st, name, comment).order);
  }

  /** A new section comes last, without items. */
  lemma StartsSection(f: Format, st: Store, done: seq<Sect>, name: string, comment: Option<string>)
    requires Built(f, st, done) && NewName(f, done, name)
    ensures Filling(f, WithSection(f, st, name, comment), done, name, comment, []) == true
  {
    var t := WithSection(f, st, name, comment);
    var es := SectionEntries(f, t);
    WithSectionOk(f, st, name, comment);
    StartedEntries(f, st, done, name, comment);
    StartedSection(f, st, done, name, comment);
    forall i | 0 <= i < |done| ensures SectOf(f, t, es[i]) == done[i] {
      OthersStay(f, st, done, name, comment, i);
    }
    FillingIs(f, t, done, name, comment, [], es);
  }

  lemma {:induction false} EntriesSet(m: Sections, i: nat, keys: KeyVal)
    requires i < |m|
    ensures Entries(m[i := m[i].(value := keys)]) == Entries(m)
    decreases |m|
  {
    if i == 0 {
      assert m[i := m[i].(value := keys)][1..] == m[1..];
    } else {
      assert m[i := m[i].(value := keys)][1..] == m[1..][i - 1 := m[i].(value := keys)];
      EntriesSet(m[1..], i - 1, keys);
    }
  }

  lemma FilledEntries(f: Format, st: Store, name: string, i: Item, t: Store)
    requires Ok(f, st) && HasSection(f, st, name)
    requires t == AddEntry(f, st, name, Some(i.key), Some(i.value), i.comment, false)
    ensures t.order == st.order + 1 && SectionEntries(f, t) == SectionEntries(f, st)
  {
    var k := Find(f.noCase, st.sections, name);
    EntriesSet(st.sections, k, AddKey(f, st.sections[k].value, i.key, i.value, i.comment, false, st.order + 1));
    OrdersBelow(f, st, name);
    BelowEntries(st.sections, st.order);
    ByOrderMore(Entries(st.sections), st.order, st.order + 1);
  }

  lemma KeyIsNew(f: Format, m: KeyVal, items: seq<Item>, key: string)
    requires Covers(m, items) && NewKey(f, items, key)
    ensures NotIn(f.noCase, m, key)
  {
    forall i | 0 <= i < |m| ensures !Same(f.noCase, m[i].entry.item, key) {
      assert Covered(m[i].entry, items);
    }
  }

  ghost predicate Covered(e: Entry, items: seq<Item>) {
    exists j :: 0 <= j < |items| && items[j].key == e.item
  }

  lemma CoveredMore(e: Entry, items: seq<Item>, i: Item)
    requires Covered(e, items) || e.item == i.key
    ensures Covered(e, items + [i])
  {
    var more := items + [i];
    if e.item == i.key {
      assert more[|items|].key == e.item;
    } else {
      var j :| 0 <= j < |items| && items[j].key == e.item;
      assert more[j].key == e.item;
    }
  }

  lemma CoversMore(f: Format, m: KeyVal, items: seq<Item>, i: Item, order: int)
    requires Covers(m, items) && (f.multiKey || NotIn(f.noCase, m, i.key))
    ensures Covers(AddKey(f, m, i.key, i.value, i.comment, false, order), items + [i])
  {
    if !f.multiKey {
      EntriesNotIn(f.noCase, m, i.key);
    }
    var p := Pair(Entry(i.key, i.comment, order), i.value);
    var k := AddKey(f, m, i.key, i.value, i.comment, false, order);
    forall j | 0 <= j < |k| ensures Covered(k[j].entry, items + [i]) {
      InsertAt(f.noCase, m, p, j);
      CoveredMore(k[j].entry, items, i);
    }
  }

  lemma FilledKeys(f: Format, st: Store, name: string, i: Item, t: Store)
    requires Ok(f, st) && HasSection(f, st, name)
    requires t == AddEntry(f, st, name, Some(i.key), Some(i.value), i.comment, false)
    ensures t.order == st.order + 1 && HasSection(f, t, name)
    ensures KeysOf(f, t, name) == AddKey(f, KeysOf(f, st, name), i.key, i.value, i.comment, false, st.order + 1)
  {
    AddEntryMeans(f, st, name, Some(i.key), Some(i.value), i.comment, false, name);
    LessIrreflexive(f.noCase, name);
  }

  /** The item may come next: its key is new, or with multi-key it is that of the item before. */
  ghost predicate Follows(f: Format, items: seq<Item>, key: string) {
    NewKey(f, items, key) || (f.multiKey && items != [] && items[|items| - 1].key == key)
  }

  lemma FilledMore(f: Format, m: KeyVal, n: int, items: seq<Item>, i: Item, order: int)
    requires KeysOk(f, m) && Filled(f, m, n, items) && Below(m, n) && 0 <= n < order && Follows(f, items, i.key)
    ensures Filled(f, AddKey(f, m, i.key, i.value, i.comment, false, order), order, items + [i])
  {
    if NewKey(f, items, i.key) {
      KeyIsNew(f, m, items, i.key);
      NewKeyItem(f, m, i.key, i.value, i.comment, n, order);
      ApartMore(f, m, n, Entry(i.key, i.comment, order));
    } else {
      OldKeyItem(f, m, i.key, i.value, i.comment, n, order);
    }
    CoversMore(f, m, items, i, order);
    assert i == Item(i.key, i.value, i.comment);
  }

  lemma ApartMore(f: Format, m: KeyVal, n: int, e: Entry)
    requires KeysApart(f, KeyOrder(f, m, n)) && NotIn(f.noCase, m, e.item)
    ensures KeysApart(f, KeyOrder(f, m, n) + [e])
  {
    var es := KeyOrder(f, m, n);
    EntriesNotIn(f.noCase, m, e.item);
    forall i | 0 <= i < |es| ensures !Same(f.noCase, es[i].item, e.item) {
      OrderedKey(f, m, n, es[i]);
    }
  }

  lemma FilledSection(f: Format, st: Store, name: string, items: seq<Item>, i: Item)
    requires Ok(f, st) && Filled(f, KeysOf(f, st, name), st.order, items) && Follows(f, items, i.key)
    ensures Filled(f, AddKey(f, KeysOf(f, st, name), i.key, i.value, i.comment, false, st.order + 1), st.order + 1,
                   items + [i]) == true
  {
    OrdersBelow(f, st, name);
    KeysAreOk(f, st, name);
    FilledMore(f, KeysOf(f, st, name), st.order, items, i, st.order + 1);
  }

  lemma LastSection(f: Format, st: Store, done: seq<Sect>, name: string, comment: Option<string>, items: seq<Item>)
    requires Filling(f, st, done, name, comment, items)
    ensures |SectionEntries(f, st)| == |done| + 1 && SectionEntries(f, st)[|done|].item == name
    ensures SectionEntries(f, st)[|done|].comment == comment
    ensures forall i :: 0 <= i < |done| ==> SectOf(f, st, SectionEntries(f, st)[i]) == done[i]
  {
    var all := done + [Sect(name, comment, items)];
    var es := SectionEntries(f, st);
    assert SectOf(f, st, es[|done|]) == all[|done|];
    forall i | 0 <= i < |done| ensures SectOf(f, st, es[i]) == done[i] {
      assert SectOf(f, st, es[i]) == all[i];
    }
  }

  /** An item that may come next is added at the end of the section that is being filled, and nothing else changes. */
  lemma FillsSection(f: Format, st: Store, done: seq<Sect>, name: string, comment: Option<string>, items: seq<Item>,
                     i: Item)
    requires Filling(f, st, done, name, comment, items) && Follows(f, items, i.key)
    ensures Filling(f, AddEntry(f, st, name, Some(i.key), Some(i.value), i.comment, false), done, name, comment,
                    items + [i]) == true
  {
    var t := AddEntry(f, st, name, Some(i.key), Some(i.value), i.comment, false);
    var es := SectionEntries(f, st);
    LastSection(f, st, done, name, comment, items);
    FilledSection(f, st, name, items, i);
    FilledKeys(f, st, name, i, t);
    FilledEntries(f, st, name, i, t);
    AddEntryOk(f, st, name, Some(i.key), Some(i.value), i.comment, false);
    forall k | 0 <= k < |done| ensures SectOf(f, t, es[k]) == done[k] {
      AddEntryMeans(f, st, name, Some(i.key), Some(i.value), i.comment, false, es[k].item);
      assert SectOf(f, st, es[k]) == done[k];
      SectStays(f, st, t, es[k]);
    }
    FillingIs(f, t, done, name, comment, items + [i], es);
  }

  lemma FillingIs(f: Format, t: Store, done: seq<Sect>, name: string, comment: Option<string>, items: seq<Item>,
                  es: seq<Entry>)
    requires Ok(f, t) && es == SectionEntries(f, t) && |es| == |done| + 1 && es[|done|].item == name
    requires es[|done|].comment == comment
    requires forall i :: 0 <= i < |done| ==> SectOf(f, t, es[i]) == done[i]
    requires NewName(f, done, name) && HasSection(f, t, name) && Filled(f, KeysOf(f, t, name), t.order, items)
    ensures Filling(f, t, done, name, comment, items) == true
  {
    var all := done + [Sect(name, comment, items)];
    forall i | 0 <= i < |all| ensures SectOf(f, t, es[i]) == all[i] {
    }
  }
}
