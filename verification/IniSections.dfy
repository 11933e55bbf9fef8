/** AddEntry and DeleteValue of SimpleIni.h on the whole store, and the invariant they keep. A clause that says `P(..)
    == true` states P as one fact, which the verifier does not unfold there. */
module IniSections {
  import opened Options
  import opened IniCompare
  import opened IniFormat
  import opened IniStore

  type Sections = seq<Pair<KeyVal>>

  function ValueOf(o: Option<string>): string {
    if o.Some? then o.value else ""
  }

  lemma FoundInserted<V>(noCase: bool, m: seq<Pair<V>>, p: Pair<V>)
    ensures Find(noCase, Insert(noCase, m, p), p.entry.item) < |Insert(noCase, m, p)|
  {
    InsertAt(noCase, m, p, Upper(noCase, m, p.entry.item));
    LessIrreflexive(noCase, p.entry.item);
  }

  /** The section exists afterwards; a comment is kept only for a section without a key. */
  function WithSection(c: Format, st: Store, section: string, comment: Option<string>): (r: Store)
    ensures Find(c.noCase, r.sections, section) < |r.sections|
  {
    if Find(c.noCase, st.sections, section) < |st.sections| then st
    else
      FoundInserted(c.noCase, st.sections, Pair(Entry(section, comment, st.order + 1), []));
      Store(Insert(c.noCase, st.sections, Pair(Entry(section, comment, st.order + 1), [])), st.order + 1)
  }

  function AddEntry(c: Format, st: Store, section: string, key: Option<string>, value: Option<string>,
                    comment: Option<string>, force: bool): Store {
    var t := WithSection(c, st, section, if key.None? then comment else None);
    if key.None? then t
    else
      var i := Find(c.noCase, t.sections, section);
      var keys := AddKey(c, t.sections[i].value, key.value, ValueOf(value), comment, force, t.order + 1);
      Store(t.sections[i := t.sections[i].(value := keys)], t.order + 1)
  }

  /** The new store and whether anything was deleted. */
  function DeleteValue(c: Format, st: Store, section: string, key: Option<string>, value: Option<string>,
                       removeEmpty: bool): (Store, bool) {
    var i := Find(c.noCase, st.sections, section);
    if i == |st.sections| then (st, false)
    else
      var gone := st.(sections := st.sections[..i] + st.sections[i + 1..]);
      if key.None? then (gone, true)
      else
        var keys := Without(c.noCase, st.sections[i].value, key.value, value);
        if |keys| == |st.sections[i].value| then (st, false)
        else if !removeEmpty
          || keys != [] then (st.(sections := st.sections[i := st.sections[i].(value := keys)]), true)
        else (gone, true)
  }

  // ------------------------------------------------------------------ what a caller sees

  predicate HasSection(c: Format, st: Store, section: string) {
    Find(c.noCase, st.sections, section) < |st.sections|
  }

  function KeysOf(c: Format, st: Store, section: string): KeyVal {
    var i := Find(c.noCase, st.sections, section);
    if i < |st.sections| then st.sections[i].value else []
  }

  lemma KeysAreNamed(c: Format, st: Store, section: string)
    ensures KeysOf(c, st, section) == if Named(c.noCase, st.sections, section) == [] then []
      else Named(c.noCase, st.sections, section)[0].value
    ensures HasSection(c, st, section) <==> Named(c.noCase, st.sections, section) != []
  {
    FoundNamed(c.noCase, st.sections, section);
  }

  lemma {:induction false} NamedSet(noCase: bool, m: Sections, i: nat, keys: KeyVal, name: string)
    requires i < |m| && i == Find(noCase, m, m[i].entry.item)
    ensures var run := Named(noCase, m, name);
            Named(noCase, m[i := m[i].(value := keys)], name)
            == if Same(noCase, name, m[i].entry.item) && run != [] then run[0 := run[0].(value := keys)] else run
    decreases |m|
  {
    var key := m[i].entry.item;
    SameIsFoldedEqual(noCase, name, key);
    SameIsFoldedEqual(noCase, m[0].entry.item, key);
    SameIsFoldedEqual(noCase, m[0].entry.item, name);
    if i == 0 {
      assert m[i := m[i].(value := keys)][1..] == m[1..];
    } else {
      assert m[i := m[i].(value := keys)][1..] == m[1..][i - 1 := m[i].(value := keys)];
      NamedSet(noCase, m[1..], i - 1, keys, name);
    }
  }

  /** A section that was not there, seen by any name. */
  lemma NewSectionMeans(c: Format, st: Store, section: string, comment: Option<string>, x: string)
    requires Sorted(c.noCase, st.sections) && !HasSection(c, st, section)
    ensures Named(c.noCase, WithSection(c, st, section, comment).sections, x)
         == if Same(c.noCase, section, x) then [Pair(Entry(section, comment, st.order + 1), [])]
           else Named(c.noCase, st.sections, x)
    ensures Same(c.noCase, section, x) ==> Named(c.noCase, st.sections, x) == []
  {
    NamedInsert(c.noCase, st.sections, Pair(Entry(section, comment, st.order + 1), []), x);
    FoundNamed(c.noCase, st.sections, section);
    if Same(c.noCase, section, x) {
      NamedSame(c.noCase, st.sections, section, x);
    }
  }

  lemma OldSectionMeans(c: Format, st: Store, section: string, x: string)
    requires HasSection(c, st, section) && Same(c.noCase, section, x)
    ensures HasSection(c, st, x)
  {
    FoundNamed(c.noCase, st.sections, section);
    FoundNamed(c.noCase, st.sections, x);
    NamedSame(c.noCase, st.sections, section, x);
  }

  lemma SectionMeans(c: Format, st: Store, section: string, comment: Option<string>, x: string)
    requires Sorted(c.noCase, st.sections)
    ensures KeysOf(c, WithSection(c, st, section, comment), x) == KeysOf(c, st, x)
    ensures HasSection(c, WithSection(c, st, section, comment), x) <==>
      HasSection(c, st, x) || Same(c.noCase, x, section)
  {
    if HasSection(c, st, section) {
      if Same(c.noCase, section, x) {
        OldSectionMeans(c, st, section, x);
      }
    } else {
      NewSectionMeans(c, st, section, comment, x);
      KeysAreNamed(c, st, x);
      KeysAreNamed(c, WithSection(c, st, section, comment), x);
    }
  }

  lemma FindSame<V>(noCase: bool, m: seq<Pair<V>>, name: string)
    requires Find(noCase, m, name) < |m|
    ensures Find(noCase, m, m[Find(noCase, m, name)].entry.item) == Find(noCase, m, name)
  {
    var i := Find(noCase, m, name);
    var other := m[i].entry.item;
    LessIrreflexive(noCase, other);
    forall k | 0 <= k < i ensures !Same(noCase, m[k].entry.item, other) {
      SameIsFoldedEqual(noCase, m[k].entry.item, other);
      SameIsFoldedEqual(noCase, other, name);
      SameIsFoldedEqual(noCase, m[k].entry.item, name);
    }
  }

  lemma {:induction false} FoundElse(noCase: bool, m: Sections, i: nat, x: string)
    requires i < |m| && Unique(noCase, m)
    ensures Named(noCase, m[..i] + m[i + 1..], x) == if Same(noCase, x, m[i].entry.item) then []
      else Named(noCase, m, x)
  {
    var a, b := m[..i], m[i + 1..];
    assert m == a + [m[i]] + b;
    NamedPieces(noCase, a, m[i], b, x);
    NamedConcat(noCase, a, b, x);
    assert |Named(noCase, m, x)| <= 1;
  }

  /** Without its section a store shows nothing under the names of that section, and all the rest. */
  lemma GoneMeans(c: Format, st: Store, i: nat, x: string)
    requires Unique(c.noCase, st.sections) && i < |st.sections|
    ensures var gone := st.(sections := st.sections[..i] + st.sections[i + 1..]);
      var other := st.sections[i].entry.item;
      && (HasSection(c, gone, x) <==> HasSection(c, st, x) && !Same(c.noCase, x, other))
      && KeysOf(c, gone, x) == if Same(c.noCase, x, other) then [] else KeysOf(c, st, x)
  {
    FoundElse(c.noCase, st.sections, i, x);
    KeysAreNamed(c, st, x);
    KeysAreNamed(c, st.(sections := st.sections[..i] + st.sections[i + 1..]), x);
  }

  lemma SetMeans(c: Format, st: Store, i: nat, keys: KeyVal, x: string)
    requires i < |st.sections| && i == Find(c.noCase, st.sections, st.sections[i].entry.item)
    ensures var t := st.(sections := st.sections[i := st.sections[i].(value := keys)]);
      var other := st.sections[i].entry.item;
      && (HasSection(c, t, x) <==> HasSection(c, st, x))
      && (Same(c.noCase, x, other) ==> HasSection(c, st, x))
      && KeysOf(c, t, x) == if Same(c.noCase, x, other) then keys else KeysOf(c, st, x)
  {
    NamedSet(c.noCase, st.sections, i, keys, x);
    KeysAreNamed(c, st, x);
    KeysAreNamed(c, st.(sections := st.sections[i := st.sections[i].(value := keys)]), x);
    if Same(c.noCase, x, st.sections[i].entry.item) {
      SameIsFoldedEqual(c.noCase, x, st.sections[i].entry.item);
      SameIsFoldedEqual(c.noCase, st.sections[i].entry.item, x);
      NamedHas(c.noCase, st.sections, x, i);
    }
  }

  lemma SameAsFound(c: Format, st: Store, section: string, x: string)
    requires HasSection(c, st, section)
    ensures Same(c.noCase, x, st.sections[Find(c.noCase, st.sections, section)].entry.item) <==>
      Same(c.noCase, x, section)
  {
    var other := st.sections[Find(c.noCase, st.sections, section)].entry.item;
    SameIsFoldedEqual(c.noCase, x, section);
    SameIsFoldedEqual(c.noCase, other, section);
    SameIsFoldedEqual(c.noCase, x, other);
  }

  /** What every section holds after an AddEntry. */
  lemma AddEntryMeans(c: Format, st: Store, section: string, key: Option<string>, value: Option<string>,
                      comment: Option<string>, force: bool, x: string)
    requires Sorted(c.noCase, st.sections)
    ensures var t := AddEntry(c, st, section, key, value, comment, force);
      && (HasSection(c, t, x) <==> HasSection(c, st, x) || Same(c.noCase, x, section))
      && KeysOf(c, t, x) == if Same(c.noCase, x, section) && key.Some?
                            then AddKey(c, KeysOf(c, st, section), key.value, ValueOf(value), comment, force, t.order)
                            else KeysOf(c, st, x)
  {
    SectionMeans(c, st, section, if key.None? then comment else None, x);
    if key.Some? {
      var t := WithSection(c, st, section, None);
      var keys := AddKey(c, KeysOf(c, st, section), key.value, ValueOf(value), comment, force, t.order + 1);
      SectionMeans(c, st, section, None, section);
      KeysSet(c, t, section, keys, t.order + 1, x);
      KeyAdded(c, st, section, key.value, value, comment, force, t, keys);
    }
  }

  lemma KeyAdded(c: Format, st: Store, section: string, key: string, value: Option<string>, comment: Option<string>,
                 force: bool, t: Store, keys: KeyVal)
    requires t == WithSection(c, st, section, None)
    requires keys == AddKey(c, KeysOf(c, t, section), key, ValueOf(value), comment, force, t.order + 1)
    ensures var i := Find(c.noCase, t.sections, section);
      AddEntry(c, st, section, Some(key), value, comment, force)
        == Store(t.sections[i := t.sections[i].(value := keys)], t.order + 1)
  {
  }

  /** The section with other keys. */
  lemma KeysSet(c: Format, t: Store, section: string, keys: KeyVal, order: int, x: string)
    requires HasSection(c, t, section)
    ensures var i := Find(c.noCase, t.sections, section);
      var u := Store(t.sections[i := t.sections[i].(value := keys)], order);
      && (HasSection(c, u, x) <==> HasSection(c, t, x))
      && KeysOf(c, u, x) == if Same(c.noCase, x, section) then keys else KeysOf(c, t, x)
  {
    FindSame(c.noCase, t.sections, section);
    SameAsFound(c, t, section, x);
    SetMeans(c, Store(t.sections, order), Find(c.noCase, t.sections, section), keys, x);
  }

  /** The name, comment and order of a section. */
  function SectionEntry(c: Format, st: Store, x: string): Option<Entry> {
    var run := Named(c.noCase, st.sections, x);
    if run == [] then None else Some(run[0].entry)
  }

  lemma SectionEntryNew(c: Format, st: Store, section: string, comment: Option<string>, x: string)
    requires Sorted(c.noCase, st.sections)
    ensures SectionEntry(c, WithSection(c, st, section, comment), x) ==
      if !HasSection(c, st, section) && Same(c.noCase, section, x) then Some(Entry(section, comment, st.order + 1))
      else SectionEntry(c, st, x)
  {
    if !HasSection(c, st, section) {
      NewSectionMeans(c, st, section, comment, x);
    }
  }

  /** AddEntry makes a section that is not there yet, with a comment only if it comes without a key, and leaves the
      name, the comment and the order of every section that is there. Each new section and each key takes the next
      number. */
  lemma AddEntryNames(c: Format, st: Store, section: string, key: Option<string>, value: Option<string>,
                      comment: Option<string>, force: bool, x: string)
    requires Sorted(c.noCase, st.sections)
    ensures var t, isNew := AddEntry(c, st, section, key, value, comment, force), !HasSection(c, st, section);
      && t.order == st.order + (if isNew then 1 else 0) + (if key.Some? then 1 else 0)
      && SectionEntry(c, t, x) ==
        if isNew && Same(c.noCase, section, x) then
          Some(Entry(section, if key.None? then comment else None, st.order + 1))
        else SectionEntry(c, st, x)
  {
    var t := WithSection(c, st, section, if key.None? then comment else None);
    SectionEntryNew(c, st, section, if key.None? then comment else None, x);
    if key.Some? {
      var i := Find(c.noCase, t.sections, section);
      FindSame(c.noCase, t.sections, section);
      NamedSet(c.noCase, t.sections, i, AddKey(c, t.sections[i].value, key.value, ValueOf(value), comment, force,
                                               t.order + 1), x);
    }
  }

  lemma KeptNames(c: Format, st: Store, section: string, keys: KeyVal, i: nat, x: string)
    requires i == Find(c.noCase, st.sections, section) < |st.sections|
    ensures SectionEntry(c, st.(sections := st.sections[i := st.sections[i].(value := keys)]), x)
      == SectionEntry(c, st, x)
  {
    FindSame(c.noCase, st.sections, section);
    NamedSet(c.noCase, st.sections, i, keys, x);
  }

  lemma GoneNames(c: Format, st: Store, i: nat, x: string)
    requires Unique(c.noCase, st.sections) && i < |st.sections|
    ensures var t := st.(sections := st.sections[..i] + st.sections[i + 1..]);
      HasSection(c, t, x) ==> SectionEntry(c, t, x) == SectionEntry(c, st, x)
  {
    var t := st.(sections := st.sections[..i] + st.sections[i + 1..]);
    KeysAreNamed(c, t, x);
    FoundElse(c.noCase, st.sections, i, x);
  }

  /** DeleteValue leaves the name, the comment and the order of every section that stays. */
  lemma DeleteNames(c: Format, st: Store, section: string, key: Option<string>, value: Option<string>,
                    removeEmpty: bool, x: string)
    requires Unique(c.noCase, st.sections)
    ensures var t := DeleteValue(c, st, section, key, value, removeEmpty).0;
      t.order == st.order && (HasSection(c, t, x) ==> SectionEntry(c, t, x) == SectionEntry(c, st, x))
  {
    var i := Find(c.noCase, st.sections, section);
    if i < |st.sections| {
      GoneNames(c, st, i, x);
      if key.Some? {
        KeptNames(c, st, section, Without(c.noCase, st.sections[i].value, key.value, value), i, x);
      }
    }
  }

  /** When DeleteValue says that it deleted something, and what it then leaves of the section. */
  lemma DeleteSays(c: Format, st: Store, section: string, key: Option<string>, value: Option<string>, removeEmpty: bool)
    ensures var r := DeleteValue(c, st, section, key, value, removeEmpty);
            var was := KeysOf(c, st, section);
      && (r.1 <==> HasSection(c, st, section) && (key.None? || Without(c.noCase, was, key.value, value) != was))
      && (!r.1 ==> r.0 == st)
  {
    var i := Find(c.noCase, st.sections, section);
    if i < |st.sections| && key.Some? {
      WithoutLess(c.noCase, st.sections[i].value, key.value, value);
    }
  }

  /** What every section holds after a DeleteValue that deleted something. */
  lemma DeleteMeans(c: Format, st: Store, section: string, key: Option<string>, value: Option<string>,
                    removeEmpty: bool, x: string)
    requires Unique(c.noCase, st.sections) && DeleteValue(c, st, section, key, value, removeEmpty).1
    ensures var r := DeleteValue(c, st, section, key, value, removeEmpty);
            var left := if key.None? then [] else Without(c.noCase, KeysOf(c, st, section), key.value, value);
      && KeysOf(c, r.0, x) == (if Same(c.noCase, x, section) then left else KeysOf(c, st, x))
      && (HasSection(c, r.0, x) <==>
          HasSection(c, st, x) && !(Same(c.noCase, x, section) && (key.None? || (removeEmpty && left == []))))
  {
    var i := Find(c.noCase, st.sections, section);
    SameAsFound(c, st, section, x);
    if key.None? || (removeEmpty && Without(c.noCase, KeysOf(c, st, section), key.value, value) == []) {
      GoneMeans(c, st, i, x);
    } else {
      FindSame(c.noCase, st.sections, section);
      SetMeans(c, st, i, Without(c.noCase, st.sections[i].value, key.value, value), x);
    }
  }

  lemma {:induction false} WithoutLess(noCase: bool, m: KeyVal, key: string, value: Option<string>)
    ensures |Without(noCase, m, key, value)| == |m| <==> Without(noCase, m, key, value) == m
    decreases |m|
  {
    if m != [] {
      WithoutLess(noCase, m[1..], key, value);
      assert m == [m[0]] + m[1..];
    }
  }

  // ------------------------------------------------------------------ the invariant

  function TallyAll(m: Sections, o: int): (n: int)
    ensures n >= 0
    decreases |m|
  {
    if m == [] then 0 else (if m[0].entry.order == o then 1 else 0) + Tally(m[0].value, o) + TallyAll(m[1..], o)
  }

  ghost predicate KeysOk(c: Format, m: KeyVal) {
    Sorted(c.noCase, m) && (!c.multiKey ==> Unique(c.noCase, m))
  }

  /** No two entries of the store, section or key, have the same order, and none is above the last one drawn. */
  ghost predicate OrdersOk(st: Store) {
    forall o :: TallyAll(st.sections, o) <= 1 && (TallyAll(st.sections, o) == 1 ==> 1 <= o <= st.order)
  }

  ghost predicate Ok(c: Format, st: Store) {
    && Sorted(c.noCase, st.sections) && Unique(c.noCase, st.sections)
    && (forall i :: 0 <= i < |st.sections| ==> KeysOk(c, st.sections[i].value))
    && OrdersOk(st) && st.order >= 0
  }

  lemma EmptyOk(c: Format)
    ensures Ok(c, Store([], 0))
  {
  }

  lemma {:induction false} TallyAllConcat(a: Sections, b: Sections, o: int)
    ensures TallyAll(a + b, o) == TallyAll(a, o) + TallyAll(b, o)
    decreases |a|
  {
    if a == [] {
      assert a + b == b;
    } else {
      assert (a + b)[1..] == a[1..] + b;
      TallyAllConcat(a[1..], b, o);
    }
  }

  lemma TallyAllMiddle(a: Sections, p: Pair<KeyVal>, b: Sections, o: int)
    ensures TallyAll(a + [p] + b, o) == TallyAll(a + b, o) + (if p.entry.order == o then 1 else 0) + Tally(p.value, o)
  {
    TallyAllConcat(a + [p], b, o);
    TallyAllConcat(a, [p], o);
    TallyAllConcat(a, b, o);
  }

  lemma TallyAllInsert(noCase: bool, m: Sections, e: Entry, o: int)
    ensures TallyAll(Insert(noCase, m, Pair(e, [])), o) == TallyAll(m, o) + (if e.order == o then 1 else 0)
  {
    var u := Upper(noCase, m, e.item);
    TallyAllMiddle(m[..u], Pair(e, []), m[u..], o);
    assert m == m[..u] + m[u..];
  }

  lemma TallyAllSet(m: Sections, i: nat, keys: KeyVal, o: int)
    requires i < |m|
    ensures TallyAll(m[i := m[i].(value := keys)], o) == TallyAll(m, o) - Tally(m[i].value, o) + Tally(keys, o)
    ensures TallyAll(m[..i] + m[i + 1..], o) <= TallyAll(m, o)
  {
    TallyAllMiddle(m[..i], m[i], m[i + 1..], o);
    assert m == m[..i] + [m[i]] + m[i + 1..];
    TallyAllMiddle(m[..i], m[i].(value := keys), m[i + 1..], o);
    assert m[i := m[i].(value := keys)] == m[..i] + [m[i].(value := keys)] + m[i + 1..];
  }

  lemma SectionsInserted(c: Format, st: Store, e: Entry)
    requires Sorted(c.noCase, st.sections) && Unique(c.noCase, st.sections)
    requires Find(c.noCase, st.sections, e.item) == |st.sections|
    ensures Sorted(c.noCase, Insert(c.noCase, st.sections, Pair(e, [])))
    ensures Unique(c.noCase, Insert(c.noCase, st.sections, Pair(e, [])))
  {
    InsertSorted(c.noCase, st.sections, Pair(e, []));
    FoundNamed(c.noCase, st.sections, e.item);
    forall name ensures |Named(c.noCase, Insert(c.noCase, st.sections, Pair(e, [])), name)| <= 1 {
      NamedInsert(c.noCase, st.sections, Pair(e, []), name);
      assert |Named(c.noCase, st.sections, name)| <= 1;
      if Same(c.noCase, e.item, name) {
        NamedSame(c.noCase, st.sections, e.item, name);
      }
    }
  }

  lemma WithSectionOrders(c: Format, st: Store, section: string, comment: Option<string>)
    requires OrdersOk(st) && st.order >= 0
    ensures OrdersOk(WithSection(c, st, section, comment)) && WithSection(c, st, section, comment).order >= st.order
  {
    var t := WithSection(c, st, section, comment);
    if t != st {
      forall o ensures TallyAll(t.sections, o) <= 1 && (TallyAll(t.sections, o) == 1 ==> 1 <= o <= t.order) {
        TallyAllInsert(c.noCase, st.sections, Entry(section, comment, st.order + 1), o);
        assert TallyAll(st.sections, o) <= 1;
      }
    }
  }

  lemma WithSectionOk(c: Format, st: Store, section: string, comment: Option<string>)
    requires Ok(c, st)
    ensures Ok(c, WithSection(c, st, section, comment)) == true
  {
    WithSectionOrders(c, st, section, comment);
    if !HasSection(c, st, section) {
      var e := Entry(section, comment, st.order + 1);
      SectionsInserted(c, st, e);
      var m := Insert(c.noCase, st.sections, Pair(e, []));
      forall i | 0 <= i < |m| ensures KeysOk(c, m[i].value) {
        InsertAt(c.noCase, st.sections, Pair(e, []), i);
      }
    }
  }

  lemma AddKeyOk(c: Format, m: KeyVal, key: string, value: string, comment: Option<string>, force: bool, order: int)
    requires KeysOk(c, m)
    ensures KeysOk(c, AddKey(c, m, key, value, comment, force, order))
  {
    AddKeySorted(c, m, key, value, comment, force, order);
    if !c.multiKey {
      forall name ensures |Named(c.noCase, AddKey(c, m, key, value, comment, force, order), name)| <= 1 {
        AddKeyMeans(c, m, key, value, comment, force, order, name);
        assert |Named(c.noCase, m, key)| <= 1 && |Named(c.noCase, m, name)| <= 1;
      }
    }
  }

  /** Putting other keys into a section leaves the sections sorted and different. */
  lemma SectionsSet(noCase: bool, m: Sections, i: nat, keys: KeyVal)
    requires i < |m| && Sorted(noCase, m) && Unique(noCase, m) && i == Find(noCase, m, m[i].entry.item)
    ensures Sorted(noCase, m[i := m[i].(value := keys)]) && Unique(noCase, m[i := m[i].(value := keys)])
  {
    var r := m[i := m[i].(value := keys)];
    forall name ensures |Named(noCase, r, name)| <= 1 {
      NamedSet(noCase, m, i, keys, name);
      assert |Named(noCase, m, name)| <= 1;
    }
  }

  lemma KeyOrders(c: Format, t: Store, i: nat, keys: KeyVal)
    requires OrdersOk(t) && t.order >= 0 && i < |t.sections|
    requires forall o :: Tally(keys, o) <= Tally(t.sections[i].value, o) + (if o == t.order + 1 then 1 else 0)
    ensures OrdersOk(Store(t.sections[i := t.sections[i].(value := keys)], t.order + 1))
  {
    var m := t.sections[i := t.sections[i].(value := keys)];
    forall o ensures TallyAll(m, o) <= 1 && (TallyAll(m, o) == 1 ==> 1 <= o <= t.order + 1) {
      TallyAllSet(t.sections, i, keys, o);
      assert TallyAll(t.sections, o) <= 1;
      assert Tally(keys, o) <= Tally(t.sections[i].value, o) + (if o == t.order + 1 then 1 else 0);
    }
  }

  lemma SetOk(c: Format, t: Store, i: nat, keys: KeyVal)
    requires Ok(c, t) && i < |t.sections| && i == Find(c.noCase, t.sections, t.sections[i].entry.item)
    requires KeysOk(c, keys)
    requires forall o :: Tally(keys, o) <= Tally(t.sections[i].value, o) + (if o == t.order + 1 then 1 else 0)
    ensures Ok(c, Store(t.sections[i := t.sections[i].(value := keys)], t.order + 1)) == true
  {
    KeyOrders(c, t, i, keys);
    SectionsSet(c.noCase, t.sections, i, keys);
  }

  /** Every AddEntry keeps the invariant. */
  lemma AddEntryOk(c: Format, st: Store, section: string, key: Option<string>, value: Option<string>,
                   comment: Option<string>, force: bool)
    requires Ok(c, st)
    ensures Ok(c, AddEntry(c, st, section, key, value, comment, force)) == true
  {
    var t := WithSection(c, st, section, if key.None? then comment else None);
    WithSectionOk(c, st, section, if key.None? then comment else None);
    if key.Some? {
      var i := Find(c.noCase, t.sections, section);
      var keys := AddKey(c, t.sections[i].value, key.value, ValueOf(value), comment, force, t.order + 1);
      forall o ensures Tally(keys, o) <= Tally(t.sections[i].value, o) + (if o == t.order + 1 then 1 else 0) {
        AddKeyTally(c, t.sections[i].value, key.value, ValueOf(value), comment, force, t.order + 1, o);
      }
      AddKeyOk(c, t.sections[i].value, key.value, ValueOf(value), comment, force, t.order + 1);
      FindSame(c.noCase, t.sections, section);
      SetOk(c, t, i, keys);
    }
  }

  lemma SectionGone(c: Format, st: Store, i: nat)
    requires Ok(c, st) && i < |st.sections|
    ensures Ok(c, st.(sections := st.sections[..i] + st.sections[i + 1..])) == true
  {
    var m := st.sections[..i] + st.sections[i + 1..];
    forall name ensures |Named(c.noCase, m, name)| <= 1 {
      FoundElse(c.noCase, st.sections, i, name);
      assert |Named(c.noCase, st.sections, name)| <= 1;
    }
    forall o ensures TallyAll(m, o) <= 1 && (TallyAll(m, o) == 1 ==> 1 <= o <= st.order) {
      TallyAllSet(st.sections, i, [], o);
      assert TallyAll(st.sections, o) <= 1;
    }
  }

  lemma {:induction false} NamedOfWithout(noCase: bool, m: KeyVal, key: string, value: Option<string>, name: string)
    ensures |Named(noCase, Without(noCase, m, key, value), name)| <= |Named(noCase, m, name)|
    decreases |m|
  {
    if m != [] {
      NamedOfWithout(noCase, m[1..], key, value, name);
    }
  }

  lemma WithoutOk(c: Format, m: KeyVal, key: string, value: Option<string>)
    requires KeysOk(c, m)
    ensures KeysOk(c, Without(c.noCase, m, key, value))
  {
    WithoutSorted(c.noCase, m, key, value);
    if !c.multiKey {
      forall name ensures |Named(c.noCase, Without(c.noCase, m, key, value), name)| <= 1 {
        NamedOfWithout(c.noCase, m, key, value, name);
        assert |Named(c.noCase, m, name)| <= 1;
      }
    }
  }

  lemma KeysLess(c: Format, st: Store, i: nat, key: string, value: Option<string>)
    requires OrdersOk(st) && i < |st.sections|
    ensures var keys := Without(c.noCase, st.sections[i].value, key, value);
            OrdersOk(st.(sections := st.sections[i := st.sections[i].(value := keys)]))
  {
    var keys := Without(c.noCase, st.sections[i].value, key, value);
    var m := st.sections[i := st.sections[i].(value := keys)];
    forall o ensures TallyAll(m, o) <= 1 && (TallyAll(m, o) == 1 ==> 1 <= o <= st.order) {
      TallyAllSet(st.sections, i, keys, o);
      TallyLess(c.noCase, st.sections[i].value, key, value, o);
      assert TallyAll(st.sections, o) <= 1;
    }
  }

  /** Every DeleteValue keeps the invariant. */
  lemma DeleteOk(c: Format, st: Store, section: string, key: Option<string>, value: Option<string>, removeEmpty: bool)
    requires Ok(c, st)
    ensures Ok(c, DeleteValue(c, st, section, key, value, removeEmpty).0) == true
  {
    var i := Find(c.noCase, st.sections, section);
    if i < |st.sections| {
      SectionGone(c, st, i);
      if key.Some? {
        var keys := Without(c.noCase, st.sections[i].value, key.value, value);
        KeysLess(c, st, i, key.value, value);
        WithoutOk(c, st.sections[i].value, key.value, value);
        FindSame(c.noCase, st.sections, section);
        SectionsSet(c.noCase, st.sections, i, keys);
      }
    }
  }
}
