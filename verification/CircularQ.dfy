/** The ring buffer of circular_q.h, and the sequence it stands for. */
module CircularQueue {
  /** Pushing on a bounded sequence: the oldest item goes when there is no room for one more. */
  function Pushed<T>(view: seq<T>, cap: nat, item: T): (next: seq<T>)
    requires |view| <= cap
    ensures |next| <= cap
  {
    if |view| < cap then view + [item] else (view + [item])[1..]
  }

  /** An index that has run past the end at most once. */
  lemma Wrapped(i: nat, n: nat)
    requires i < 2 * n
    ensures i % n == if i < n then i else i - n
  {
    if i >= n {
      assert i == (i - n) + n && (i - n) / n == 0;
    }
  }

  /** The items between two places of a ring. */
  function Between<T>(v: seq<T>, head: nat, tail: nat): (view: seq<T>)
    requires head < |v| && tail < |v|
    ensures |view| == if tail >= head then tail - head else |v| - (head - tail)
  {
    if head <= tail then v[head..tail] else v[head..] + v[..tail]
  }

  function Next(i: nat, n: nat): nat {
    if i + 1 == n then 0 else i + 1
  }

  lemma WriteAtTail<T>(v: seq<T>, head: nat, tail: nat, item: T)
    requires head < |v| && tail < |v| && Next(tail, |v|) != head
    ensures Between(v[tail := item], head, Next(tail, |v|)) == Between(v, head, tail) + [item]
  {
  }

  lemma OverwriteHead<T>(v: seq<T>, head: nat, tail: nat, item: T)
    requires head < |v| && tail < |v| && Next(tail, |v|) == head
    ensures Between(v[tail := item], Next(head, |v|), head) == (Between(v, head, tail) + [item])[1..]
  {
  }

  /** What a push does to the places and the items of a ring. */
  lemma RingPush<T>(v: seq<T>, head: nat, tail: nat, item: T)
    requires head < |v| && tail < |v|
    ensures var full := Next(tail, |v|) == head;
      && Between(v[tail := item], if full then Next(head, |v|) else head, Next(tail, |v|))
         == Pushed(Between(v, head, tail), |v| - 1, item)
      && (full <==> |Between(v, head, tail)| == |v| - 1)
  {
    if Next(tail, |v|) == head { OverwriteHead(v, head, tail, item); } else { WriteAtTail(v, head, tail, item); }
  }

  /** (i + 1) % n */
  method Following(i: nat, n: nat) returns (j: nat)
    requires i < n
    ensures j == Next(i, n) < n
  {
    Wrapped(i + 1, n);
    j := (i + 1) % n;
  }

  /** A ring with one slot more than its capacity, which marks the full queue. A moved-from ring has maxItems 0: it
      is disabled and drops what is pushed without counting it. */
  class CircularQ<T(0)> {
    var maxItems: nat
    var head: nat
    var tail: nat
    var overrunCounter: nat
    var v: array<T>

    ghost predicate Valid()
      reads this
    {
      if maxItems == 0 then head == tail == 0
      else v.Length == maxItems && head < maxItems && tail < maxItems
    }

    ghost function Capacity(): nat
      reads this
    {
      if maxItems == 0 then 0 else maxItems - 1
    }

    /** The items from the oldest to the newest. */
    ghost function View(): (view: seq<T>)
      reads this, v
      requires Valid()
      ensures |view| <= Capacity()
      ensures |view| == (if tail >= head then tail - head else maxItems - (head - tail))
    {
      if maxItems == 0 then [] else Between(v[..], head, tail)
    }

    constructor (max: nat)
      ensures Valid() && maxItems == max + 1 && Capacity() == max && View() == [] && overrunCounter == 0 && fresh(v)
    {
      maxItems := max + 1;
      head, tail, overrunCounter := 0, 0, 0;
      v := new T[max + 1];
    }

    /** The default constructor. */
    constructor Disabled()
      ensures Valid() && maxItems == 0 && View() == [] && overrunCounter == 0 && fresh(v)
    {
      maxItems, head, tail, overrunCounter := 0, 0, 0, 0;
      v := new T[0];
    }

    method PushBack(item: T)
      requires Valid()
      modifies this`head, this`tail, this`overrunCounter, v
      ensures Valid()
      ensures maxItems > 0 ==> View() == Pushed(old(View()), Capacity(), item)
      ensures maxItems > 0 ==>
        overrunCounter == old(overrunCounter) + (if |old(View())| == Capacity() then 1 else 0)
      ensures maxItems == 0 ==> View() == [] && overrunCounter == old(overrunCounter)
    {
      if maxItems > 0 {
        ghost var was := v[..];
        RingPush(was, head, tail, item);
        v[tail] := item;
        assert v[..] == was[tail := item];
        tail := Following(tail, maxItems);
        if tail == head {
          head := Following(head, maxItems);
          overrunCounter := overrunCounter + 1;
        }
      }
    }

    function Front(): T
      reads this, v
      requires Valid() && View() != []
      ensures Front() == View()[0]
    {
      v[head]
    }

    function Size(): (n: nat)
      reads this, v
      requires Valid()
      ensures n == |View()|
    {
      if tail >= head then tail - head else maxItems - (head - tail)
    }

    method At(i: nat) returns (item: T)
      requires Valid() && i < |View()|
      ensures item == View()[i]
    {
      Wrapped(head + i, maxItems);
      item := v[(head + i) % maxItems];
    }

    method PopFront()
      requires Valid() && View() != []
      modifies this`head
      ensures Valid() && View() == old(View())[1..]
    {
      head := Following(head, maxItems);
    }

    predicate Empty()
      reads this, v
      requires Valid()
      ensures Empty() <==> View() == []
    {
      tail == head
    }

    /** A disabled ring says that it is not full. */
    predicate Full()
      reads this, v
      requires Valid()
      ensures Full() <==> maxItems > 0 && |View()| == Capacity()
    {
      maxItems > 0 && (Wrapped(tail + 1, maxItems); (tail + 1) % maxItems == head)
    }

    /** copy_moveable: this ring becomes what the other one was, and the other one is disabled. */
    method MoveFrom(other: CircularQ<T>)
      requires other.Valid() && other != this
      modifies this, other`maxItems, other`head, other`tail, other`overrunCounter, other`v
      ensures Valid() && maxItems == old(other.maxItems) && View() == old(other.View())
      ensures overrunCounter == old(other.overrunCounter) && v == old(other.v)
      ensures other.Valid() && other.maxItems == 0 && other.View() == [] && other.overrunCounter == 0
    {
      maxItems := other.maxItems;
      head := other.head;
      tail := other.tail;
      overrunCounter := other.overrunCounter;
      v := other.v;
      other.v := new T[0];
      other.maxItems := 0;
      other.head, other.tail := 0, 0;
      other.overrunCounter := 0;
    }
  }
}
