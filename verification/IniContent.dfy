/** What Save of SimpleIni.h finds in the store: sections and keys in load order. */
module IniContent {
  import opened Options
  import opened IniFormat
  import opened IniStore
  import opened IniPrint
  import opened IniSections

  function Entries<V>(m: seq<Pair<V>>): (r: seq<Entry>)
    ensures |r| == |m|
  {
    if m == [] then [] else [m[0].entry] + Entries(m[1..])
  }

  function Pick(es: seq<Entry>, n: int): seq<Entry> {
    if es == [] then []
    else if es[0].order == n then [es[0]] + Pick(es[1..], n)
    else Pick(es[1..], n)
  }

  /** The entries with an order from 1 to n, by order. */
  function ByOrder(es: seq<Entry>, n: int): seq<Entry>
    decreases n
  {
    if n <= 0 then [] else ByOrder(es, n - 1) + Pick(es, n)
  }

  function TallyEntries(es: seq<Entry>, o: int): (n: int)
    ensures n >= 0
  {
    if es == [] then 0 else (if es[0].order == o then 1 else 0) + TallyEntries(es[1..], o)
  }

  // ------------------------------------------------------------------ it is what sort by load order gives

  lemma {:induction false} PickHas(es: seq<Entry>, n: int, e: Entry)
    ensures e in Pick(es, n) <==> e in es && e.order == n
  {
    if es != [] {
      PickHas(es[1..], n, e);
    }
  }

  lemma {:induction false} PickCount(es: seq<Entry>, n: int)
    ensures |Pick(es, n)| == TallyEntries(es, n)
  {
    if es != [] {
      PickCount(es[1..], n);
    }
  }

  lemma {:induction false} ByOrderHas(es: seq<Entry>, n: int, e: Entry)
    ensures e in ByOrder(es, n) <==> e in es && 1 <= e.order <= n
    decreases n
  {
    if n > 0 {
      ByOrderHas(es, n - 1, e);
      PickHas(es, n, e);
    }
  }

  /** Distinct orders are sorted strictly. */
  lemma {:induction false} ByOrderSorted(es: seq<Entry>, n: int)
    requires forall o :: TallyEntries(es, o) <= 1
    ensures forall i, j :: 0 <= i < j < |ByOrder(es, n)| ==> ByOrder(es, n)[i].order < ByOrder(es, n)[j].order
    decreases n
  {
    if n > 0 {
      ByOrderSorted(es, n - 1);
      PickCount(es, n);
      assert TallyEntries(es, n) <= 1;
      var a: seq<Entry>, b: seq<Entry> := ByOrder(es, n - 1), Pick(es, n);
      forall i, j | 0 <= i < j < |a + b| ensures (a + b)[i].order < (a + b)[j].order {
        if j == |a| {
          assert a[i] in a && b[0] in b;
          ByOrderHas(es, n - 1, a[i]);
          PickHas(es, n, b[0]);
        }
      }
    }
  }

  // ------------------------------------------------------------------ the content of a store

  function SectionEntries(f: Format, st: Store): seq<Entry> {
    ByOrder(Entries(st.sections), st.order)
  }

  /** The section without a name is written first. */
  function EmptyFirst(es: seq<Entry>): seq<Entry> {
    var i := EmptyAt(es);
    if i < |es| then [es[i]] + es[..i] + es[i + 1..] else es
  }

  function EmptyAt(es: seq<Entry>): (i: nat)
    ensures i <= |es| && (i < |es| ==> es[i].item == []) && forall k :: 0 <= k < i ==> es[k].item != []
  {
    if es == [] || es[0].item == [] then 0 else 1 + EmptyAt(es[1..])
  }

  /** All values of one key; without multi-key only the first. */
  function ValuesOf(f: Format, m: KeyVal, key: string): KeyVal {
    var run := Named(f.noCase, m, key);
    if f.multiKey || run == [] then run else run[..1]
  }

  function ItemsOfKey(f: Format, m: KeyVal, e: Entry): seq<Item> {
    ItemsOfRun(e.item, ValuesOf(f, m, e.item))
  }

  function ItemsOfRun(key: string, run: KeyVal): seq<Item> {
    if run == [] then [] else [Item(key, run[0].value, run[0].entry.comment)] + ItemsOfRun(key, run[1..])
  }

  function ItemsOfKeys(f: Format, m: KeyVal, es: seq<Entry>): seq<Item> {
    if es == [] then [] else ItemsOfKeys(f, m, es[..|es| - 1]) + ItemsOfKey(f, m, es[|es| - 1])
  }

  function ItemsOf(f: Format, m: KeyVal, n: int): seq<Item> {
    ItemsOfKeys(f, m, ByOrder(AllKeys(f.noCase, m, None), n))
  }

  function SectOf(f: Format, st: Store, e: Entry): Sect {
    Sect(e.item, e.comment, ItemsOf(f, KeysOf(f, st, e.item), st.order))
  }

  function SectsOf(f: Format, st: Store, es: seq<Entry>): (r: seq<Sect>)
    ensures |r| == |es|
  {
    if es == [] then [] else SectsOf(f, st, es[..|es| - 1]) + [SectOf(f, st, es[|es| - 1])]
  }

  function Content(f: Format, st: Store): seq<Sect> {
    SectsOf(f, st, EmptyFirst(SectionEntries(f, st)))
  }

  lemma {:induction false} SectAt(f: Format, st: Store, es: seq<Entry>, i: nat)
    requires i < |es|
    ensures SectsOf(f, st, es)[i] == SectOf(f, st, es[i])
    decreases |es|
  {
    if i < |es| - 1 {
      SectAt(f, st, es[..|es| - 1], i);
    }
  }

  // ------------------------------------------------------------------ adding at the end of the order

  lemma {:induction false} PickInsert(a: seq<Entry>, e: Entry, b: seq<Entry>, n: int)
    ensures e.order != n ==> Pick(a + [e] + b, n) == Pick(a + b, n)
  {
    if a == [] {
      assert [] + [e] + b == [e] + b && [] + b == b;
    } else {
      assert (a + [e] + b)[1..] == a[1..] + [e] + b && (a + b)[1..] == a[1..] + b;
      PickInsert(a[1..], e, b, n);
    }
  }

  lemma {:induction false} PickNone(es: seq<Entry>, n: int)
    requires forall e :: e in es ==> e.order != n
    ensures Pick(es, n) == []
  {
    if es != [] {
      assert es[0] in es;
      PickNone(es[1..], n);
    }
  }

  lemma {:induction false} PickOnly(a: seq<Entry>, e: Entry, b: seq<Entry>)
    requires forall x :: x in a + b ==> x.order != e.order
    ensures Pick(a + [e] + b, e.order) == [e]
  {
    if a == [] {
      assert [] + [e] + b == [e] + b && [] + b == b;
      PickNone(b, e.order);
    } else {
      assert (a + [e] + b)[1..] == a[1..] + [e] + b && (a + b)[1..] == a[1..] + b;
      assert a[0] in a + b;
      forall x | x in a[1..] + b ensures x in a + b {
      }
      PickOnly(a[1..], e, b);
    }
  }

  lemma {:induction false} ByOrderInsert(a: seq<Entry>, e: Entry, b: seq<Entry>, n: int)
    requires n < e.order
    ensures ByOrder(a + [e] + b, n) == ByOrder(a + b, n)
    decreases n
  {
    if n > 0 {
      ByOrderInsert(a, e, b, n - 1);
      PickInsert(a, e, b, n);
    }
  }

  lemma {:induction false} ByOrderMore(es: seq<Entry>, n: int, more: int)
    requires n <= more && forall e :: e in es ==> e.order <= n
    ensures ByOrder(es, more) == ByOrder(es, n)
    decreases more
  {
    if n < more && more > 0 {
      ByOrderMore(es, n, more - 1);
      PickNone(es, more);
    }
  }

  /** A new entry with the highest order comes last. */
  lemma ByOrderNewest(a: seq<Entry>, e: Entry, b: seq<Entry>, n: int)
    requires (forall x :: x in a + b ==> x.order <= n) && n < e.order && e.order >= 1
    ensures ByOrder(a + [e] + b, e.order) == ByOrder(a + b, n) + [e]
  {
    ByOrderInsert(a, e, b, e.order - 1);
    ByOrderMore(a + b, n, e.order - 1);
    PickOnly(a, e, b);
  }
}
