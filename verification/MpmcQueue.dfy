/** mpmc_blocking_q.h: the sections under the mutex, and the queue as a state machine over its threads. */
module MpmcQueue {
  import opened CircularQueue

  datatype Policy = Block | OverrunOldest | DiscardNew

  /** Where a thread is in one of the calls of the queue. A thread that waits has given the mutex back; once it is
      awake it has to take the mutex again before it looks at the queue. */
  datatype Pc<T> =
    | Idle
    | Enqueuing(item: T, policy: Policy)
    | BlockedEnqueue(item: T)
    | AwakeEnqueue(item: T)
    | NotifyPush
    | Discarding
    | Dequeuing(timed: bool)
    | BlockedDequeue(timed: bool)
    | AwakeDequeue(timed: bool)
    | TimedOut
    | NotifyPop(item: T)

  // ------------------------------------------------------------------ the sections under the mutex

  /** What a section under the mutex makes of the queue and of the thread. `gone` is the item that left the queue,
      with true if the thread took it. */
  datatype Outcome<T> = Outcome(items: seq<T>, pc: Pc<T>, pushed: bool, gone: seq<(T, bool)>)

  predicate TakesLock<T>(pc: Pc<T>) {
    pc.Enqueuing? || pc.AwakeEnqueue? || pc.Dequeuing? || pc.AwakeDequeue? || pc.TimedOut?
  }

  function Push<T>(items: seq<T>, cap: nat, item: T): (o: Outcome<T>)
    requires |items| <= cap
    ensures |o.items| <= cap
  {
    Outcome(Pushed(items, cap, item), NotifyPush, true, if |items| < cap then [] else [((items + [item])[0], false)])
  }

  function Pop<T>(items: seq<T>): Outcome<T>
    requires items != []
  {
    Outcome(items[1..], NotifyPop(items[0]), false, [(items[0], true)])
  }

  function Section<T>(items: seq<T>, cap: nat, pc: Pc<T>): (o: Outcome<T>)
    requires |items| <= cap && TakesLock(pc)
    ensures |o.items| <= cap
  {
    match pc
    case Enqueuing(item, Block) => if |items| == cap then Outcome(items, BlockedEnqueue(item), false, [])
      else Push(items, cap, item)
    case AwakeEnqueue(item) => if |items| == cap then Outcome(items, BlockedEnqueue(item), false, [])
      else Push(items, cap, item)
    case Enqueuing(item, OverrunOldest) => Push(items, cap, item)
    case Enqueuing(item, DiscardNew) => if |items| == cap then Outcome(items, Discarding, false, [])
      else Push(items, cap, item)
    case Dequeuing(timed) => if items == [] then Outcome(items, BlockedDequeue(timed), false, []) else Pop(items)
    case AwakeDequeue(timed) => if items == [] then Outcome(items, BlockedDequeue(timed), false, []) else Pop(items)
    case TimedOut => if items == [] then Outcome(items, Idle, false, []) else Pop(items)
  }

  /** The object whose methods are the sections. They return where the thread goes next. */
  class BlockingQueue<T(0)> {
    var q: CircularQ<T>
    var discardCounter: nat

    ghost predicate Valid()
      reads this, q
    {
      q.Valid() && q.maxItems > 0
    }

    constructor (maxItems: nat)
      ensures Valid() && q.Capacity() == maxItems && q.View() == [] && q.overrunCounter == 0 && discardCounter == 0
      ensures fresh(q) && fresh(q.v)
    {
      q := new CircularQ(maxItems);
      discardCounter := 0;
    }

    /** This section has done what the specification says. */
    twostate predicate Does(from: Pc<T>, new to: Pc<T>)
      reads this, q, q.v
      requires old(Valid()) && TakesLock(from)
    {
      var o := Section(old(q.View()), old(q.Capacity()), from);
      && Valid() && q == old(q) && q.v == old(q.v) && q.Capacity() == old(q.Capacity())
      && q.View() == o.items && to == o.pc
      && q.overrunCounter == old(q.overrunCounter) + (if o.pushed then |o.gone| else 0)
      && discardCounter == old(discardCounter)
    }

    /** enqueue, from when it has the mutex to when it waits or gives it back. */
    method Enqueue(item: T, awake: bool) returns (next: Pc<T>)
      requires Valid()
      modifies q`head, q`tail, q`overrunCounter, q.v
      ensures Does(if awake then AwakeEnqueue(item) else Enqueuing(item, Block), next)
      ensures old(|q.View()|) < q.Capacity() ==> q.View() == old(q.View()) + [item] && next == NotifyPush
      ensures old(|q.View()|) == q.Capacity() ==> q.View() == old(q.View()) && next == BlockedEnqueue(item)
      ensures q.overrunCounter == old(q.overrunCounter)
    {
      if q.Full() { return BlockedEnqueue(item); }
      q.PushBack(item);
      return NotifyPush;
    }

    method EnqueueNowait(item: T) returns (next: Pc<T>)
      requires Valid()
      modifies q`head, q`tail, q`overrunCounter, q.v
      ensures Does(Enqueuing(item, OverrunOldest), next) && next == NotifyPush
      ensures old(|q.View()|) < q.Capacity() ==>
        q.View() == old(q.View()) + [item] && q.overrunCounter == old(q.overrunCounter)
      ensures old(|q.View()|) == q.Capacity() ==>
        q.View() == (old(q.View()) + [item])[1..] && q.overrunCounter == old(q.overrunCounter) + 1
    {
      q.PushBack(item);
      return NotifyPush;
    }

    method EnqueueIfHaveRoom(item: T) returns (next: Pc<T>)
      requires Valid()
      modifies q`head, q`tail, q`overrunCounter, q.v
      ensures Does(Enqueuing(item, DiscardNew), next)
      ensures old(|q.View()|) < q.Capacity() ==> q.View() == old(q.View()) + [item] && next == NotifyPush
      ensures old(|q.View()|) == q.Capacity() ==> q.View() == old(q.View()) && next == Discarding
      ensures q.overrunCounter == old(q.overrunCounter)
    {
      var pushed := false;
      if !q.Full() {
        q.PushBack(item);
        pushed := true;
      }
      next := if pushed then NotifyPush else Discarding;
    }

    /** The else branch of enqueue_if_have_room, after the mutex has been given back. */
    method CountDiscard()
      modifies this`discardCounter
      ensures discardCounter == old(discardCounter) + 1
    {
      discardCounter := discardCounter + 1;
    }

    /** dequeue and dequeue_for. */
    method Dequeue(from: Pc<T>) returns (next: Pc<T>)
      requires Valid() && (from.Dequeuing? || from.AwakeDequeue? || from.TimedOut?)
      modifies q`head
      ensures Does(from, next)
      ensures old(q.View()) != [] ==> q.View() == old(q.View())[1..] && next == NotifyPop(old(q.View())[0])
      ensures old(q.View()) == [] ==> q.View() == [] && next == if from.TimedOut? then Idle
        else BlockedDequeue(from.timed)
    {
      if q.Empty() {
        return if from.TimedOut? then Idle else BlockedDequeue(from.timed);
      }
      var poppedItem := q.Front();
      q.PopFront();
      return NotifyPop(poppedItem);
    }
  }
}
