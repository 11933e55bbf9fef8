/** The section and key store of SimpleIni.h as values: AddEntry and DeleteValue, and what they keep. */
module IniStore {
  import opened Options
  import opened IniCompare
  import opened IniFormat

  datatype Entry = Entry(item: string, comment: Option<string>, order: int)

  datatype Pair<V> = Pair(entry: Entry, value: V)

  /** A multimap, in the order of its names; names that are the same stand in the order in which they came. */
  type KeyVal = seq<Pair<string>>

  datatype Store = Store(sections: seq<Pair<KeyVal>>, order: int)

  ghost predicate Sorted<V>(noCase: bool, m: seq<Pair<V>>) {
    forall i, j :: 0 <= i < j < |m| ==> !Less(noCase, m[j].entry.item, m[i].entry.item)
  }

  // ------------------------------------------------------------------ the library's maps

  /** The first element with that name, or |m|. */
  function Find<V>(noCase: bool, m: seq<Pair<V>>, name: string): (r: nat)
    ensures r <= |m|
    ensures r < |m| ==> Same(noCase, m[r].entry.item, name)
    ensures forall i :: 0 <= i < r ==> !Same(noCase, m[i].entry.item, name)
    decreases |m|
  {
    if m == [] || Same(noCase, m[0].entry.item, name) then 0 else 1 + Find(noCase, m[1..], name)
  }

  /** The first element with a greater name, or |m|. */
  function Upper<V>(noCase: bool, m: seq<Pair<V>>, name: string): (r: nat)
    ensures r <= |m|
    ensures r < |m| ==> Less(noCase, name, m[r].entry.item)
    ensures forall i :: 0 <= i < r ==> !Less(noCase, name, m[i].entry.item)
    decreases |m|
  {
    if m == [] || Less(noCase, name, m[0].entry.item) then 0 else 1 + Upper(noCase, m[1..], name)
  }

  function Insert<V>(noCase: bool, m: seq<Pair<V>>, p: Pair<V>): seq<Pair<V>> {
    var u := Upper(noCase, m, p.entry.item);
    m[..u] + [p] + m[u..]
  }

  lemma AboveStaysAbove<V>(noCase: bool, m: seq<Pair<V>>, name: string, j: nat)
    requires Sorted(noCase, m) && Upper(noCase, m, name) <= j < |m|
    ensures Less(noCase, name, m[j].entry.item)
  {
    var u := Upper(noCase, m, name);
    if u < j {
      StillLess(noCase, name, m[u].entry.item, m[j].entry.item);
    }
  }

  lemma InsertAt<V>(noCase: bool, m: seq<Pair<V>>, p: Pair<V>, i: nat)
    requires i <= |m|
    ensures var u := Upper(noCase, m, p.entry.item);
            Insert(noCase, m, p)[i] == if i < u then m[i] else if i == u then p else m[i - 1]
  {
  }

  lemma InsertSorted<V>(noCase: bool, m: seq<Pair<V>>, p: Pair<V>)
    requires Sorted(noCase, m)
    ensures Sorted(noCase, Insert(noCase, m, p))
  {
    var r, u, name := Insert(noCase, m, p), Upper(noCase, m, p.entry.item), p.entry.item;
    forall i, j | 0 <= i < j < |r| ensures !Less(noCase, r[j].entry.item, r[i].entry.item) {
      InsertAt(noCase, m, p, i);
      InsertAt(noCase, m, p, j);
      if i == u {
        AboveStaysAbove(noCase, m, name, j - 1);
        LessAsymmetric(noCase, name, r[j].entry.item);
      }
    }
  }

  // ------------------------------------------------------------------ all entries of one name

  /** The values of a name, in the order in which they came. */
  function Named<V>(noCase: bool, m: seq<Pair<V>>, name: string): (r: seq<Pair<V>>)
    ensures |r| <= |m|
    decreases |m|
  {
    if m == [] then []
    else if Same(noCase, m[0].entry.item, name) then [m[0]] + Named(noCase, m[1..], name)
    else Named(noCase, m[1..], name)
  }

  lemma {:induction false} NamedConcat<V>(noCase: bool, a: seq<Pair<V>>, b: seq<Pair<V>>, name: string)
    ensures Named(noCase, a + b, name) == Named(noCase, a, name) + Named(noCase, b, name)
    decreases |a|
  {
    if a == [] {
      assert a + b == b;
    } else {
      assert (a + b)[1..] == a[1..] + b;
      NamedConcat(noCase, a[1..], b, name);
    }
  }

  lemma {:induction false} NamedNone<V>(noCase: bool, m: seq<Pair<V>>, name: string)
    requires forall i :: 0 <= i < |m| ==> !Same(noCase, m[i].entry.item, name)
    ensures Named(noCase, m, name) == []
    decreases |m|
  {
    if m != [] {
      NamedNone(noCase, m[1..], name);
    }
  }

  lemma {:induction false} NamedAll<V>(noCase: bool, m: seq<Pair<V>>, name: string)
    requires forall i :: 0 <= i < |m| ==> Same(noCase, m[i].entry.item, name)
    ensures Named(noCase, m, name) == m
    decreases |m|
  {
    if m != [] {
      NamedAll(noCase, m[1..], name);
    }
  }

  /** Which entries DeleteValue erases: those of the key, or of them those whose value compares equal. */
  predicate Doomed(noCase: bool, p: Pair<string>, key: string, value: Option<string>) {
    Same(noCase, p.entry.item, key) && (value.Some? ==> Same(noCase, p.value, value.value))
  }

  function Without(noCase: bool, m: KeyVal, key: string, value: Option<string>): (r: KeyVal)
    ensures |r| <= |m|
    decreases |m|
  {
    if m == [] then []
    else if Doomed(noCase, m[0], key, value) then Without(noCase, m[1..], key, value)
    else [m[0]] + Without(noCase, m[1..], key, value)
  }

  lemma {:induction false} WithoutConcat(noCase: bool, a: KeyVal, b: KeyVal, key: string, value: Option<string>)
    ensures Without(noCase, a + b, key, value) == Without(noCase, a, key, value) + Without(noCase, b, key, value)
    decreases |a|
  {
    if a == [] {
      assert a + b == b;
    } else {
      assert (a + b)[1..] == a[1..] + b;
      WithoutConcat(noCase, a[1..], b, key, value);
    }
  }

  lemma {:induction false} WithoutNone(noCase: bool, m: KeyVal, key: string, value: Option<string>)
    requires forall i :: 0 <= i < |m| ==> !Same(noCase, m[i].entry.item, key)
    ensures Without(noCase, m, key, value) == m
    decreases |m|
  {
    if m != [] {
      WithoutNone(noCase, m[1..], key, value);
    }
  }

  /** What is left is in the order it was. */
  lemma {:induction false} WithoutSorted(noCase: bool, m: KeyVal, key: string, value: Option<string>)
    requires Sorted(noCase, m)
    ensures Sorted(noCase, Without(noCase, m, key, value))
    ensures forall p :: p in Without(noCase, m, key, value) ==> p in m
    decreases |m|
  {
    if m != [] {
      var rest := Without(noCase, m[1..], key, value);
      WithoutSorted(noCase, m[1..], key, value);
      forall j | 0 <= j < |rest| ensures !Less(noCase, rest[j].entry.item, m[0].entry.item) {
        assert rest[j] in rest;
        var k :| 0 <= k < |m[1..]| && m[1..][k] == rest[j];
        assert m[k + 1] == rest[j];
      }
    }
  }

  /** Names that are the same have the same entries. */
  /** Exactly the entries of that key go, or of them those with a value that compares equal; every other entry stays as
      often as it was there. */
  lemma {:induction false} WithoutMeans(noCase: bool, m: KeyVal, key: string, value: Option<string>, p: Pair<string>)
    ensures multiset(Without(noCase, m, key, value))[p] ==
      if Same(noCase, p.entry.item, key) && (value.None? || Same(noCase, p.value, value.value)) then 0
      else multiset(m)[p]
    decreases |m|
  {
    if m != [] {
      WithoutMeans(noCase, m[1..], key, value, p);
      assert m == [m[0]] + m[1..];
    }
  }

  lemma {:induction false} NamedSame<V>(noCase: bool, m: seq<Pair<V>>, a: string, b: string)
    requires Same(noCase, a, b)
    ensures Named(noCase, m, a) == Named(noCase, m, b)
    decreases |m|
  {
    if m != [] {
      SameIsFoldedEqual(noCase, a, b);
      SameIsFoldedEqual(noCase, m[0].entry.item, a);
      SameIsFoldedEqual(noCase, m[0].entry.item, b);
      NamedSame(noCase, m[1..], a, b);
    }
  }

  /** Erasing a whole key leaves none of its entries and all others. */
  lemma {:induction false} NamedWithout(noCase: bool, m: KeyVal, key: string, name: string)
    ensures Named(noCase, Without(noCase, m, key, None), name) == if Same(noCase, name, key) then []
      else Named(noCase, m, name)
    decreases |m|
  {
    if m != [] {
      SameIsFoldedEqual(noCase, name, key);
      SameIsFoldedEqual(noCase, m[0].entry.item, key);
      SameIsFoldedEqual(noCase, m[0].entry.item, name);
      NamedWithout(noCase, m[1..], key, name);
    }
  }

  lemma AboveUnnamed<V>(noCase: bool, m: seq<Pair<V>>, name: string, other: string)
    requires Sorted(noCase, m) && Same(noCase, name, other)
    ensures var u := Upper(noCase, m, name); Named(noCase, m[u..], other) == []
  {
    var u := Upper(noCase, m, name);
    forall i | 0 <= i < |m[u..]| ensures !Same(noCase, m[u..][i].entry.item, other) {
      AboveStaysAbove(noCase, m, name, u + i);
      SameOrder(noCase, name, other, m[u + i].entry.item);
    }
    NamedNone(noCase, m[u..], other);
  }

  lemma NamedPieces<V>(noCase: bool, a: seq<Pair<V>>, p: Pair<V>, b: seq<Pair<V>>, name: string)
    ensures Named(noCase, a + [p] + b, name)
         == Named(noCase, a, name) + (if Same(noCase, p.entry.item, name) then [p] else []) + Named(noCase, b, name)
  {
    NamedConcat(noCase, a + [p], b, name);
    NamedConcat(noCase, a, [p], name);
    assert Named(noCase, [p], name) == if Same(noCase, p.entry.item, name) then [p] else [];
  }

  lemma NamedSplit<V>(noCase: bool, m: seq<Pair<V>>, u: nat, name: string)
    requires u <= |m|
    ensures Named(noCase, m, name) == Named(noCase, m[..u], name) + Named(noCase, m[u..], name)
  {
    NamedConcat(noCase, m[..u], m[u..], name);
    assert m == m[..u] + m[u..];
  }

  /** An inserted entry becomes the last of its name. */
  lemma NamedInsert<V>(noCase: bool, m: seq<Pair<V>>, p: Pair<V>, name: string)
    requires Sorted(noCase, m)
    ensures Named(noCase, Insert(noCase, m, p), name)
         == if Same(noCase, p.entry.item, name) then Named(noCase, m, name) + [p] else Named(noCase, m, name)
  {
    var u := Upper(noCase, m, p.entry.item);
    NamedSplit(noCase, m, u, name);
    NamedPieces(noCase, m[..u], p, m[u..], name);
    if Same(noCase, p.entry.item, name) {
      AboveUnnamed(noCase, m, p.entry.item, name);
    }
  }

  // ------------------------------------------------------------------ adding a key to a section

  /** The least order below the best so far, and the comment that goes with it. */
  function Earliest(m: KeyVal, order: int, comment: Option<string>): (int, Option<string>)
    decreases |m|
  {
    if m == [] then (order, comment)
    else if m[0].entry.order < order then Earliest(m[1..], m[0].entry.order, m[0].entry.comment)
    else Earliest(m[1..], order, comment)
  }

  function Or(a: Option<string>, b: Option<string>): Option<string> {
    if a.Some? then a else b
  }

  /** AddEntry from where it looks for the key; order is the number it has just drawn. */
  function AddKey(c: Format, m: KeyVal, key: string, value: string, comment: Option<string>, force: bool,
                  order: int): KeyVal {
    var i := Find(c.noCase, m, key);
    if i < |m| && c.multiKey && force then
      var first := Earliest(Named(c.noCase, m, key), order, None);
      Insert(c.noCase, Without(c.noCase, m, key, None), Pair(Entry(key, Or(first.1, comment), first.0), value))
    else if i < |m| && !c.multiKey then m[i := m[i].(value := value)]
    else Insert(c.noCase, m, Pair(Entry(key, comment, order), value))
  }

  /** What becomes of the entries of that key. */
  function Replaced(c: Format, run: KeyVal, key: string, value: string, comment: Option<string>, force: bool,
                    order: int): KeyVal {
    if run != [] && c.multiKey && force then
      var first := Earliest(run, order, None);
      [Pair(Entry(key, Or(first.1, comment), first.0), value)]
    else if run != [] && !c.multiKey then run[0 := run[0].(value := value)]
    else run + [Pair(Entry(key, comment, order), value)]
  }

  lemma {:induction false} FoundNamed<V>(noCase: bool, m: seq<Pair<V>>, name: string)
    ensures Find(noCase, m, name) < |m| <==> Named(noCase, m, name) != []
    ensures Find(noCase, m, name) < |m| ==> Named(noCase, m, name)[0] == m[Find(noCase, m, name)]
    decreases |m|
  {
    if m != [] {
      FoundNamed(noCase, m[1..], name);
    }
  }

  lemma {:induction false} NamedUpdate(noCase: bool, m: KeyVal, key: string, value: string, name: string)
    requires Find(noCase, m, key) < |m|
    ensures var i := Find(noCase, m, key); var run := Named(noCase, m, name);
            Named(noCase, m[i := m[i].(value := value)], name)
            == if Same(noCase, name, key) && run != [] then run[0 := run[0].(value := value)] else run
    decreases |m|
  {
    var i := Find(noCase, m, key);
    SameIsFoldedEqual(noCase, name, key);
    SameIsFoldedEqual(noCase, m[0].entry.item, key);
    SameIsFoldedEqual(noCase, m[0].entry.item, name);
    if i == 0 {
      assert m[i := m[i].(value := value)][1..] == m[1..];
    } else {
      assert m[i := m[i].(value := value)][1..] == m[1..][i - 1 := m[i].(value := value)];
      NamedUpdate(noCase, m[1..], key, value, name);
    }
  }

  /** The entries of every name after an AddEntry. */
  lemma AddKeyMeans(c: Format, m: KeyVal, key: string, value: string, comment: Option<string>, force: bool, order: int,
                    name: string)
    requires Sorted(c.noCase, m)
    ensures Named(c.noCase, AddKey(c, m, key, value, comment, force, order), name) ==
      if Same(c.noCase, name, key) then Replaced(c, Named(c.noCase, m, key), key, value, comment, force, order)
      else Named(c.noCase, m, name)
  {
    var i := Find(c.noCase, m, key);
    FoundNamed(c.noCase, m, key);
    if Same(c.noCase, name, key) {
      NamedSame(c.noCase, m, name, key);
    }
    if i < |m| && c.multiKey && force {
      var first := Earliest(Named(c.noCase, m, key), order, None);
      WithoutSorted(c.noCase, m, key, None);
      NamedInsert(c.noCase, Without(c.noCase, m, key, None), Pair(Entry(key, Or(first.1, comment), first.0), value),
                  name);
      NamedWithout(c.noCase, m, key, name);
    } else if i < |m| && !c.multiKey {
      NamedUpdate(c.noCase, m, key, value, name);
    } else {
      NamedInsert(c.noCase, m, Pair(Entry(key, comment, order), value), name);
    }
  }

  lemma AddKeySorted(c: Format, m: KeyVal, key: string, value: string, comment: Option<string>, force: bool, order: int)
    requires Sorted(c.noCase, m)
    ensures Sorted(c.noCase, AddKey(c, m, key, value, comment, force, order))
  {
    var i := Find(c.noCase, m, key);
    if i < |m| && c.multiKey && force {
      var first := Earliest(Named(c.noCase, m, key), order, None);
      WithoutSorted(c.noCase, m, key, None);
      InsertSorted(c.noCase, Without(c.noCase, m, key, None), Pair(Entry(key, Or(first.1, comment), first.0), value));
    } else if i < |m| && !c.multiKey {
    } else {
      InsertSorted(c.noCase, m, Pair(Entry(key, comment, order), value));
    }
  }

  // ------------------------------------------------------------------ load orders

  /** How many entries have the order o. */
  function Tally<V>(m: seq<Pair<V>>, o: int): (n: int)
    ensures n >= 0
    decreases |m|
  {
    if m == [] then 0 else (if m[0].entry.order == o then 1 else 0) + Tally(m[1..], o)
  }

  lemma {:induction false} TallyConcat<V>(a: seq<Pair<V>>, b: seq<Pair<V>>, o: int)
    ensures Tally(a + b, o) == Tally(a, o) + Tally(b, o)
    decreases |a|
  {
    if a == [] {
      assert a + b == b;
    } else {
      assert (a + b)[1..] == a[1..] + b;
      TallyConcat(a[1..], b, o);
    }
  }

  lemma TallyInsert<V>(noCase: bool, m: seq<Pair<V>>, p: Pair<V>, o: int)
    ensures Tally(Insert(noCase, m, p), o) == Tally(m, o) + (if p.entry.order == o then 1 else 0)
  {
    var u := Upper(noCase, m, p.entry.item);
    TallyConcat(m[..u] + [p], m[u..], o);
    TallyConcat(m[..u], [p], o);
    assert m == m[..u] + m[u..];
    TallyConcat(m[..u], m[u..], o);
  }

  lemma {:induction false} TallyWithout(noCase: bool, m: KeyVal, key: string, o: int)
    ensures Tally(m, o) == Tally(Without(noCase, m, key, None), o) + Tally(Named(noCase, m, key), o)
    decreases |m|
  {
    if m != [] {
      TallyWithout(noCase, m[1..], key, o);
    }
  }

  lemma {:induction false} TallyLess(noCase: bool, m: KeyVal, key: string, value: Option<string>, o: int)
    ensures Tally(Without(noCase, m, key, value), o) <= Tally(m, o)
    decreases |m|
  {
    if m != [] {
      TallyLess(noCase, m[1..], key, value, o);
    }
  }

  lemma {:induction false} TallyUpdate(m: KeyVal, i: nat, value: string, o: int)
    requires i < |m|
    ensures Tally(m[i := m[i].(value := value)], o) == Tally(m, o)
    decreases |m|
  {
    if i == 0 {
      assert m[i := m[i].(value := value)][1..] == m[1..];
    } else {
      assert m[i := m[i].(value := value)][1..] == m[1..][i - 1 := m[i].(value := value)];
      TallyUpdate(m[1..], i - 1, value, o);
    }
  }

  lemma {:induction false} Tallied<V>(m: seq<Pair<V>>, i: nat)
    requires i < |m|
    ensures Tally(m, m[i].entry.order) >= 1
    decreases |m|
  {
    if i > 0 {
      Tallied(m[1..], i - 1);
    }
  }

  /** Forced replacement keeps the earliest position: the least order of the replaced entries, and the comment there. */
  lemma {:induction false} EarliestIsLeast(m: KeyVal, order: int, comment: Option<string>)
    ensures var r := Earliest(m, order, comment);
            && r.0 <= order
            && (forall i :: 0 <= i < |m| ==> r.0 <= m[i].entry.order)
            && (r == (order, comment)
                || exists i :: 0 <= i < |m| && m[i].entry.order == r.0 && m[i].entry.comment == r.1)
    decreases |m|
  {
    if m != [] {
      var o, k := if m[0].entry.order < order then m[0].entry.order
        else order, if m[0].entry.order < order then m[0].entry.comment else comment;
      EarliestIsLeast(m[1..], o, k);
      var r := Earliest(m[1..], o, k);
      forall i | 0 <= i < |m| ensures r.0 <= m[i].entry.order {
        if i > 0 {
          assert m[i] == m[1..][i - 1];
        }
      }
      if r != (o, k) {
        var i :| 0 <= i < |m[1..]| && m[1..][i].entry.order == r.0 && m[1..][i].entry.comment == r.1;
        assert m[i + 1] == m[1..][i];
      }
    }
  }

  /** The orders of a section after an AddEntry are the ones it had, or fewer, and possibly the number just drawn. */
  lemma AddKeyTally(c: Format, m: KeyVal, key: string, value: string, comment: Option<string>, force: bool, order: int,
                    o: int)
    ensures Tally(AddKey(c, m, key, value, comment, force, order), o) <= Tally(m, o) + (if o == order then 1 else 0)
  {
    var i := Find(c.noCase, m, key);
    if i < |m| && c.multiKey && force {
      var run := Named(c.noCase, m, key);
      var first := Earliest(run, order, None);
      TallyInsert(c.noCase, Without(c.noCase, m, key, None), Pair(Entry(key, Or(first.1, comment), first.0), value), o);
      TallyWithout(c.noCase, m, key, o);
      EarliestIsLeast(run, order, None);
      if first.0 == o && o != order {
        var k :| 0 <= k < |run| && run[k].entry.order == first.0;
        Tallied(run, k);
      }
    } else if i < |m| && !c.multiKey {
      TallyUpdate(m, i, value, o);
    } else {
      TallyInsert(c.noCase, m, Pair(Entry(key, comment, order), value), o);
    }
  }

  // ------------------------------------------------------------------ counting keys

  ghost predicate Unique<V>(noCase: bool, m: seq<Pair<V>>) {
    forall name :: |Named(noCase, m, name)| <= 1
  }

  /** GetAllKeys: one entry for every run of names that are the same. */
  function AllKeys(noCase: bool, m: KeyVal, last: Option<string>): seq<Entry>
    decreases |m|
  {
    if m == [] then []
    else if last.None? || Less(noCase, last.value, m[0].entry.item) then
      [m[0].entry] + AllKeys(noCase, m[1..], Some(m[0].entry.item))
    else AllKeys(noCase, m[1..], last)
  }

  ghost function FoldedNames(noCase: bool, m: KeyVal): set<string> {
    set i | 0 <= i < |m| :: Folded(noCase, m[i].entry.item)
  }

  lemma FoldedNamesStep(noCase: bool, m: KeyVal)
    requires m != []
    ensures FoldedNames(noCase, m) == {Folded(noCase, m[0].entry.item)} + FoldedNames(noCase, m[1..])
  {
    forall i | 0 <= i < |m|
      ensures Folded(noCase, m[i].entry.item) in {Folded(noCase, m[0].entry.item)} + FoldedNames(noCase, m[1..]) {
      if i > 0 {
        assert m[i] == m[1..][i - 1];
      }
    }
    forall i | 0 <= i < |m[1..]| ensures Folded(noCase, m[1..][i].entry.item) in FoldedNames(noCase, m) {
      assert m[1..][i] == m[i + 1];
    }
  }

  lemma OneMore(all: set<string>, tail: set<string>, first: string, last: string)
    requires all == {first} + tail && last !in all
    ensures |all - {last}| == 1 + |tail - {first}|
  {
    assert all - {last} == (tail - {first}) + {first};
  }

  lemma {:induction false} KeysAfter(noCase: bool, m: KeyVal, last: string)
    requires Sorted(noCase, m) && forall i :: 0 <= i < |m| ==> !Less(noCase, m[i].entry.item, last)
    ensures |AllKeys(noCase, m, Some(last))| == |FoldedNames(noCase, m) - {Folded(noCase, last)}|
    decreases |m|
  {
    if m != [] {
      var first := m[0].entry.item;
      FoldedNamesStep(noCase, m);
      if Less(noCase, last, first) {
        KeysAfter(noCase, m[1..], first);
        NotAmong(noCase, m, last);
        OneMore(FoldedNames(noCase, m), FoldedNames(noCase, m[1..]), Folded(noCase, first), Folded(noCase, last));
      } else {
        KeysAfter(noCase, m[1..], last);
        SameIsFoldedEqual(noCase, last, first);
        assert FoldedNames(noCase, m) - {Folded(noCase, last)} == FoldedNames(noCase, m[1..]) - {Folded(noCase, last)};
      }
    }
  }

  /** A name before the first is none of them. */
  lemma NotAmong(noCase: bool, m: KeyVal, name: string)
    requires Sorted(noCase, m) && m != [] && Less(noCase, name, m[0].entry.item)
    ensures Folded(noCase, name) !in FoldedNames(noCase, m)
  {
    forall i | 0 <= i < |m| ensures Folded(noCase, m[i].entry.item) != Folded(noCase, name) {
      SameIsFoldedEqual(noCase, name, m[i].entry.item);
      if i > 0 {
        NotLessTransitive(noCase, name, m[i].entry.item, m[0].entry.item);
      }
    }
  }

  /** GetAllKeys returns as many keys as there are different names. */
  lemma AllKeysCount(noCase: bool, m: KeyVal)
    requires Sorted(noCase, m)
    ensures |AllKeys(noCase, m, None)| == |FoldedNames(noCase, m)|
  {
    if m != [] {
      var first := m[0].entry.item;
      LessIrreflexive(noCase, first);
      KeysAfter(noCase, m[1..], first);
      FoldedNamesStep(noCase, m);
      var rest := FoldedNames(noCase, m[1..]) - {Folded(noCase, first)};
      assert FoldedNames(noCase, m) == rest + {Folded(noCase, first)};
    }
  }

  lemma UniqueTail<V>(noCase: bool, m: seq<Pair<V>>)
    requires Unique(noCase, m) && m != []
    ensures Unique(noCase, m[1..])
    ensures forall i :: 0 < i < |m| ==> !Same(noCase, m[i].entry.item, m[0].entry.item)
  {
    forall name ensures |Named(noCase, m[1..], name)| <= 1 {
      assert |Named(noCase, m, name)| <= 1;
    }
    LessIrreflexive(noCase, m[0].entry.item);
    assert |Named(noCase, m, m[0].entry.item)| <= 1;
    forall i | 0 < i < |m| ensures !Same(noCase, m[i].entry.item, m[0].entry.item) {
      if Same(noCase, m[1..][i - 1].entry.item, m[0].entry.item) {
        NamedHas(noCase, m[1..], m[0].entry.item, i - 1);
      }
    }
  }

  /** Without duplicates the number of entries is the number of different names. */
  lemma {:induction false} UniqueCount(noCase: bool, m: KeyVal)
    requires Unique(noCase, m)
    ensures |FoldedNames(noCase, m)| == |m|
    decreases |m|
  {
    if m != [] {
      UniqueTail(noCase, m);
      UniqueCount(noCase, m[1..]);
      FoldedNamesStep(noCase, m);
      forall i | 0 <= i < |m[1..]| ensures Folded(noCase, m[1..][i].entry.item) != Folded(noCase, m[0].entry.item) {
        SameIsFoldedEqual(noCase, m[i + 1].entry.item, m[0].entry.item);
      }
    }
  }

  lemma {:induction false} NamedHas<V>(noCase: bool, m: seq<Pair<V>>, name: string, i: nat)
    requires i < |m| && Same(noCase, m[i].entry.item, name)
    ensures Named(noCase, m, name) != []
    decreases |m|
  {
    if i > 0 {
      NamedHas(noCase, m[1..], name, i - 1);
    }
  }

  lemma RunIsSame<V>(noCase: bool, m: seq<Pair<V>>, name: string, i: nat)
    requires Sorted(noCase, m) && Find(noCase, m, name) <= i < Upper(noCase, m, name)
    ensures Same(noCase, m[i].entry.item, name)
  {
    NotLessTransitive(noCase, m[i].entry.item, m[Find(noCase, m, name)].entry.item, name);
  }

  lemma RunNotEmpty<V>(noCase: bool, m: seq<Pair<V>>, name: string)
    requires Sorted(noCase, m) && Find(noCase, m, name) < |m|
    ensures Find(noCase, m, name) < Upper(noCase, m, name)
  {
    if Upper(noCase, m, name) <= Find(noCase, m, name) {
      AboveStaysAbove(noCase, m, name, Find(noCase, m, name));
    }
  }

  lemma NamedSlices<V>(noCase: bool, m: seq<Pair<V>>, name: string, f: nat, u: nat)
    requires f <= u <= |m|
    ensures Named(noCase, m, name)
      == Named(noCase, m[..f], name) + Named(noCase, m[f..u], name) + Named(noCase, m[u..], name)
  {
    NamedConcat(noCase, m[..f], m[f..u], name);
    assert m[..u] == m[..f] + m[f..u];
    NamedConcat(noCase, m[..u], m[u..], name);
    assert m == m[..u] + m[u..];
  }

  lemma RunIsNamed<V>(noCase: bool, m: seq<Pair<V>>, name: string)
    requires Sorted(noCase, m) && Find(noCase, m, name) < Upper(noCase, m, name)
    ensures var run := m[Find(noCase, m, name)..Upper(noCase, m, name)]; Named(noCase, run, name) == run
  {
    var f, u := Find(noCase, m, name), Upper(noCase, m, name);
    var run := m[f..u];
    forall i | 0 <= i < |run| ensures Same(noCase, run[i].entry.item, name) {
      assert run[i] == m[f + i];
      RunIsSame(noCase, m, name, f + i);
    }
    NamedAll(noCase, run, name);
  }

  /** In a sorted map the entries of a name are one run. */
  lemma NamedIsRun<V>(noCase: bool, m: seq<Pair<V>>, name: string)
    requires Sorted(noCase, m) && Find(noCase, m, name) < |m|
    ensures Find(noCase, m, name) < Upper(noCase, m, name)
    ensures Named(noCase, m, name) == m[Find(noCase, m, name)..Upper(noCase, m, name)]
  {
    RunNotEmpty(noCase, m, name);
    RunIsNamed(noCase, m, name);
    NamedNone(noCase, m[..Find(noCase, m, name)], name);
    LessIrreflexive(noCase, name);
    AboveUnnamed(noCase, m, name, name);
    NamedSlices(noCase, m, name, Find(noCase, m, name), Upper(noCase, m, name));
  }
}
