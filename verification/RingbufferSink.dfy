/** ringbuffer_sink.h, and what the ring keeps over a whole run. */
module RingbufferSinks {
  import opened CircularQueue

  // ------------------------------------------------------------------ runs of the ring

  datatype Op<T> = Push(item: T) | Pop

  /** Every pop finds an item. */
  predicate Runs<T>(view: seq<T>, cap: nat, ops: seq<Op<T>>)
    requires |view| <= cap
    decreases |ops|
  {
    ops == [] || ((ops[0].Pop? ==> view != []) && Runs(Step(view, cap, ops[0]), cap, ops[1..]))
  }

  function Step<T>(view: seq<T>, cap: nat, op: Op<T>): (next: seq<T>)
    requires |view| <= cap
    ensures |next| <= cap
  {
    match op
    case Push(item) => Pushed(view, cap, item)
    case Pop => if view == [] then [] else view[1..]
  }

  function After<T>(view: seq<T>, cap: nat, ops: seq<Op<T>>): (next: seq<T>)
    requires |view| <= cap
    ensures |next| <= cap
    decreases |ops|
  {
    if ops == [] then view else After(Step(view, cap, ops[0]), cap, ops[1..])
  }

  /** What one operation makes leave the ring, with true for an item that a pop took. */
  function Leaves<T>(view: seq<T>, cap: nat, op: Op<T>): seq<(T, bool)>
    requires |view| <= cap && (op.Pop? ==> view != [])
  {
    match op
    case Push(item) => if |view| == cap then [((view + [item])[0], false)] else []
    case Pop => [(view[0], true)]
  }

  function Leaving<T>(view: seq<T>, cap: nat, ops: seq<Op<T>>): seq<(T, bool)>
    requires |view| <= cap && Runs(view, cap, ops)
    decreases |ops|
  {
    if ops == [] then [] else Leaves(view, cap, ops[0]) + Leaving(Step(view, cap, ops[0]), cap, ops[1..])
  }

  function Overruns<T>(view: seq<T>, cap: nat, ops: seq<Op<T>>): nat
    requires |view| <= cap
    decreases |ops|
  {
    if ops == [] then 0
    else (if ops[0].Push? && |view| == cap then 1 else 0) + Overruns(Step(view, cap, ops[0]), cap, ops[1..])
  }

  function Pushes<T>(ops: seq<Op<T>>): seq<T> {
    if ops == [] then [] else (if ops[0].Push? then [ops[0].item] else []) + Pushes(ops[1..])
  }

  function Items<T>(gone: seq<(T, bool)>): (items: seq<T>)
    ensures |items| == |gone|
  {
    seq(|gone|, i requires 0 <= i < |gone| => gone[i].0)
  }

  function Dropped<T>(gone: seq<(T, bool)>): nat {
    if gone == [] then 0 else (if gone[0].1 then 0 else 1) + Dropped(gone[1..])
  }

  lemma StepConserves<T>(view: seq<T>, cap: nat, op: Op<T>)
    requires |view| <= cap && (op.Pop? ==> view != [])
    ensures view + (if op.Push? then [op.item] else []) == Items(Leaves(view, cap, op)) + Step(view, cap, op)
  {
  }

  lemma {:induction false} DroppedConcat<T>(a: seq<(T, bool)>, b: seq<(T, bool)>)
    ensures Dropped(a + b) == Dropped(a) + Dropped(b)
  {
    if a == [] {
      assert a + b == b;
    } else {
      assert (a + b)[1..] == a[1..] + b;
      DroppedConcat(a[1..], b);
    }
  }

  /** Over any run the items leave from the front in the order they came in; none is lost and none is made up.
      Capacity 0 is no exception. */
  lemma {:induction false} RingConserves<T>(view: seq<T>, cap: nat, ops: seq<Op<T>>)
    requires |view| <= cap && Runs(view, cap, ops)
    ensures view + Pushes(ops) == Items(Leaving(view, cap, ops)) + After(view, cap, ops)
    decreases |ops|
  {
    if ops == [] {
      assert view + [] == [] + view;
    } else {
      var next, gone := Step(view, cap, ops[0]), Leaves(view, cap, ops[0]);
      RingConserves(next, cap, ops[1..]);
      StepConserves(view, cap, ops[0]);
      var rest := Leaving(next, cap, ops[1..]);
      Regroup(view, if ops[0].Push? then [ops[0].item] else [], Pushes(ops[1..]),
              Items(gone), next, Items(rest), After(next, cap, ops[1..]));
      ItemsConcat(gone, rest);
    }
  }

  /** The overrun counter counts the items that left without being popped. */
  lemma {:induction false} RingCounts<T>(view: seq<T>, cap: nat, ops: seq<Op<T>>)
    requires |view| <= cap && Runs(view, cap, ops)
    ensures Dropped(Leaving(view, cap, ops)) == Overruns(view, cap, ops)
    decreases |ops|
  {
    if ops != [] {
      var next, gone := Step(view, cap, ops[0]), Leaves(view, cap, ops[0]);
      RingCounts(next, cap, ops[1..]);
      DroppedConcat(gone, Leaving(next, cap, ops[1..]));
    }
  }

  lemma ItemsConcat<T>(a: seq<(T, bool)>, b: seq<(T, bool)>)
    ensures Items(a + b) == Items(a) + Items(b)
  {
  }

  lemma Regroup<T>(a: seq<T>, b: seq<T>, c: seq<T>, d: seq<T>, e: seq<T>, f: seq<T>, g: seq<T>)
    requires a + b == d + e && e + c == f + g
    ensures a + (b + c) == (d + f) + g
  {
    assert a + (b + c) == (a + b) + c == d + (e + c);
  }

  function Newest<T>(items: seq<T>, n: nat): seq<T> {
    if n >= |items| then items else items[|items| - n..]
  }

  function PushAll<T>(view: seq<T>, cap: nat, items: seq<T>): (next: seq<T>)
    requires |view| <= cap
    ensures |next| <= cap
    decreases |items|
  {
    if items == [] then view else PushAll(Pushed(view, cap, items[0]), cap, items[1..])
  }

  /** With pushes alone the ring holds the newest items, as many as it has room for. */
  lemma {:induction false} PushAllKeepsNewest<T>(view: seq<T>, cap: nat, items: seq<T>)
    requires |view| <= cap
    ensures PushAll(view, cap, items) == Newest(view + items, cap)
    decreases |items|
  {
    if items == [] {
      assert view + [] == view;
    } else {
      var next := Pushed(view, cap, items[0]);
      PushAllKeepsNewest(next, cap, items[1..]);
      assert view + items == (view + [items[0]]) + items[1..];
      if |view| == cap {
        assert next + items[1..] == (view + items)[1..];
      }
    }
  }

  // ------------------------------------------------------------------ the sink

  class RingbufferSink<T(0)> {
    var q: CircularQ<T>

    ghost predicate Valid()
      reads this, q
    {
      q.Valid() && q.maxItems > 0
    }

    constructor (nItems: nat)
      ensures Valid() && fresh(q) && fresh(q.v) && q.Capacity() == nItems && q.View() == []
    {
      q := new CircularQ(nItems);
    }

    method SinkIt(msg: T)
      requires Valid()
      modifies q`head, q`tail, q`overrunCounter, q.v
      ensures Valid() && q.Capacity() == old(q.Capacity()) && q.v == old(q.v)
      ensures q.View() == Pushed(old(q.View()), q.Capacity(), msg)
    {
      q.PushBack(msg);
    }

    /** The newest items in order, at most lim of them, or all of them when lim is 0. */
    method LastRaw(lim: nat) returns (ret: seq<T>)
      requires Valid()
      ensures ret == Newest(q.View(), if lim > 0 then lim else |q.View()|)
    {
      var itemsAvailable := q.Size();
      var nItems := if lim > 0 then (if lim < itemsAvailable then lim else itemsAvailable) else itemsAvailable;
      ret := [];
      var i := itemsAvailable - nItems;
      ghost var view, first := q.View(), i;
      while i < itemsAvailable
        invariant first <= i <= itemsAvailable == |view|
        invariant ret == view[first..i]
      {
        var item := q.At(i);
        OneMore(view, first, i);
        ret := ret + [item];
        i := i + 1;
      }
      assert view[first..itemsAvailable] == view[first..];
    }
  }

  lemma OneMore<T>(view: seq<T>, first: nat, i: nat)
    requires first <= i < |view|
    ensures view[first..i + 1] == view[first..i] + [view[i]]
  {
  }
}
