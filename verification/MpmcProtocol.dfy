/** Any number of threads in the calls of one mpmc_blocking_queue, one atomic step at a time. */
module MpmcProtocol {
  import opened MpmcQueue

  /** The queue, where each thread is, and what has happened so far: the items pushed, the items that have left
      with true for those a thread took, and the items turned away. */
  datatype State<T> = State(
    cap: nat, items: seq<T>, overruns: nat, discards: nat, threads: seq<Pc<T>>,
    pushed: seq<T>, gone: seq<(T, bool)>, rejected: seq<T>)

  function Init<T>(cap: nat, n: nat): State<T> {
    State(cap, [], 0, 0, seq(n, i => Idle), [], [], [])
  }

  // ------------------------------------------------------------------ steps

  /** A thread calls in, takes the mutex for a section, notifies one waiting thread or nobody, counts a discard,
      wakes up without being notified, or gives up waiting because its time is over. */
  datatype Step<T> =
    | CallEnqueue(t: nat, item: T, policy: Policy)
    | CallDequeue(t: nat, timed: bool)
    | Lock(t: nat)
    | NotifyOne(t: nat, other: nat)
    | NotifyNobody(t: nat)
    | CountDiscard(t: nat)
    | WakeSpuriously(t: nat)
    | TimeOut(t: nat)

  /** A condition variable hands a notification to a thread that waits on it, if there is one. */
  predicate WaitsFor<T>(waiter: Pc<T>, notifier: Pc<T>) {
    (notifier.NotifyPush? && waiter.BlockedDequeue?) || (notifier.NotifyPop? && waiter.BlockedEnqueue?)
  }

  function Awake<T>(waiter: Pc<T>): Pc<T>
    requires waiter.BlockedDequeue? || waiter.BlockedEnqueue?
  {
    if waiter.BlockedDequeue? then AwakeDequeue(waiter.timed) else AwakeEnqueue(waiter.item)
  }

  predicate Enabled<T>(s: State<T>, step: Step<T>) {
    && |s.items| <= s.cap
    && step.t < |s.threads|
    && var pc := s.threads[step.t];
    match step
    case CallEnqueue(_, _, _) => pc.Idle?
    case CallDequeue(_, _) => pc.Idle?
    case Lock(_) => TakesLock(pc)
    case NotifyOne(_, other) => other < |s.threads| && WaitsFor(s.threads[other], pc)
    case NotifyNobody(_) =>
      (pc.NotifyPush? || pc.NotifyPop?) && forall i :: 0 <= i < |s.threads| ==> !WaitsFor(s.threads[i], pc)
    case CountDiscard(_) => pc.Discarding?
    case WakeSpuriously(_) => pc.BlockedDequeue? || pc.BlockedEnqueue?
    case TimeOut(_) => pc.BlockedDequeue? && pc.timed
  }

  function Do<T>(s: State<T>, step: Step<T>): (s': State<T>)
    requires Enabled(s, step)
    ensures s'.cap == s.cap && |s'.threads| == |s.threads| && |s'.items| <= s'.cap
  {
    var t := step.t;
    match step
    case CallEnqueue(_, item, policy) => s.(threads := s.threads[t := Enqueuing(item, policy)])
    case CallDequeue(_, timed) => s.(threads := s.threads[t := Dequeuing(timed)])
    case Lock(_) => DoLock(s, t)
    case NotifyOne(_, other) => s.(threads := s.threads[t := Idle][other := Awake(s.threads[other])])
    case NotifyNobody(_) => s.(threads := s.threads[t := Idle])
    case CountDiscard(_) => s.(threads := s.threads[t := Idle], discards := s.discards + 1)
    case WakeSpuriously(_) => s.(threads := s.threads[t := Awake(s.threads[t])])
    case TimeOut(_) => s.(threads := s.threads[t := TimedOut])
  }

  function DoLock<T>(s: State<T>, t: nat): (s': State<T>)
    requires t < |s.threads| && TakesLock(s.threads[t]) && |s.items| <= s.cap
    ensures s'.cap == s.cap && |s'.threads| == |s.threads| && |s'.items| <= s'.cap
  {
    var pc := s.threads[t];
    var o := Section(s.items, s.cap, pc);
    s.(
      items := o.items,
      threads := s.threads[t := o.pc],
      overruns := s.overruns + (if o.pushed then |o.gone| else 0),
      pushed := s.pushed + (if o.pushed then [pc.item] else []),
      gone := s.gone + o.gone,
      rejected := s.rejected + (if o.pc.Discarding? then [pc.item] else []))
  }

  predicate Runs<T>(s: State<T>, steps: seq<Step<T>>)
    decreases |steps|
  {
    steps == [] || (Enabled(s, steps[0]) && Runs(Do(s, steps[0]), steps[1..]))
  }

  function After<T>(s: State<T>, steps: seq<Step<T>>): State<T>
    requires Runs(s, steps)
    decreases |steps|
  {
    if steps == [] then s else After(Do(s, steps[0]), steps[1..])
  }

  // ------------------------------------------------------------------ counting threads

  datatype Kind =
    | ConsumerBlocked | ConsumerAwake | PushPending
    | ProducerBlocked | ProducerAwake | PopPending
    | DiscardPending | Other

  function KindOf<T>(pc: Pc<T>): Kind {
    match pc
    case BlockedDequeue(_) => ConsumerBlocked
    case AwakeDequeue(_) => ConsumerAwake
    case NotifyPush => PushPending
    case BlockedEnqueue(_) => ProducerBlocked
    case AwakeEnqueue(_) => ProducerAwake
    case NotifyPop(_) => PopPending
    case Discarding => DiscardPending
    case _ => Other
  }

  function One(b: bool): nat {
    if b then 1 else 0
  }

  function Count<T>(threads: seq<Pc<T>>, k: Kind): nat {
    if threads == [] then 0 else One(KindOf(threads[0]) == k) + Count(threads[1..], k)
  }

  lemma {:induction false} CountUpdate<T>(threads: seq<Pc<T>>, t: nat, pc: Pc<T>, k: Kind)
    requires t < |threads|
    ensures Count(threads[t := pc], k) + One(KindOf(threads[t]) == k) == Count(threads, k) + One(KindOf(pc) == k)
    ensures Count(threads, k) >= One(KindOf(threads[t]) == k)
  {
    if t == 0 {
      assert threads[0 := pc][1..] == threads[1..];
    } else {
      assert threads[t := pc][1..] == threads[1..][t - 1 := pc];
      CountUpdate(threads[1..], t - 1, pc, k);
    }
  }

  lemma {:induction false} CountNone<T>(threads: seq<Pc<T>>, k: Kind)
    requires forall i :: 0 <= i < |threads| ==> KindOf(threads[i]) != k
    ensures Count(threads, k) == 0
  {
    if threads != [] { CountNone(threads[1..], k); }
  }

  // ------------------------------------------------------------------ no lost wakeup

  /** While a consumer waits, there are no more items than threads that will see to them: producers about to notify,
      and consumers awake already. While a producer waits, the same holds of the free slots. */
  predicate NoLostWakeup<T>(s: State<T>) {
    && |s.items| <= s.cap
    && (Count(s.threads, ConsumerBlocked) > 0 ==>
        |s.items| <= Count(s.threads, PushPending) + Count(s.threads, ConsumerAwake))
    && (Count(s.threads, ProducerBlocked) > 0 ==>
        s.cap - |s.items| <= Count(s.threads, PopPending) + Count(s.threads, ProducerAwake))
  }

  lemma AllCounts<T>(threads: seq<Pc<T>>, t: nat, pc: Pc<T>)
    requires t < |threads|
    ensures forall k {:trigger Count(threads[t := pc], k)} ::
      Count(threads[t := pc], k) + One(KindOf(threads[t]) == k) == Count(threads, k) + One(KindOf(pc) == k)
    ensures forall k {:trigger Count(threads, k)} :: Count(threads, k) >= One(KindOf(threads[t]) == k)
  {
    forall k ensures Count(threads[t := pc], k) + One(KindOf(threads[t]) == k)
      == Count(threads, k) + One(KindOf(pc) == k)
             ensures Count(threads, k) >= One(KindOf(threads[t]) == k)
    {
      CountUpdate(threads, t, pc, k);
    }
  }

  lemma StepKeepsWakeup<T>(s: State<T>, step: Step<T>)
    requires NoLostWakeup(s) && Enabled(s, step)
    ensures NoLostWakeup(Do(s, step))
  {
    match step
    case Lock(t) => LockKeepsWakeup(s, t);
    case NotifyOne(t, other) => NotifyOneKeepsWakeup(s, t, other);
    case NotifyNobody(t) => NotifyNobodyKeepsWakeup(s, t);
    case _ => MoveKeepsWakeup(s, Do(s, step), step.t);
  }

  /** A thread that was not about to do anything for others moves, and does not start to wait. */
  lemma MoveKeepsWakeup<T>(s: State<T>, s': State<T>, t: nat)
    requires NoLostWakeup(s) && t < |s.threads| && |s.threads| == |s'.threads|
    requires s'.threads == s.threads[t := s'.threads[t]] && s'.items == s.items && s'.cap == s.cap
    requires KindOf(s.threads[t]) !in {ConsumerAwake, ProducerAwake, PushPending, PopPending}
    requires KindOf(s'.threads[t]) !in {ConsumerBlocked, ProducerBlocked}
    ensures NoLostWakeup(s')
  {
    AllCounts(s.threads, t, s'.threads[t]);
  }

  lemma NotifyOneKeepsWakeup<T>(s: State<T>, t: nat, other: nat)
    requires NoLostWakeup(s) && Enabled(s, NotifyOne(t, other))
    ensures NoLostWakeup(Do(s, NotifyOne(t, other)))
  {
    var mid, awake := s.threads[t := Idle], Awake(s.threads[other]);
    AllCounts(s.threads, t, Idle);
    AllCounts(mid, other, awake);
    assert mid[other] == s.threads[other];
  }

  lemma NotifyNobodyKeepsWakeup<T>(s: State<T>, t: nat)
    requires NoLostWakeup(s) && Enabled(s, NotifyNobody(t))
    ensures NoLostWakeup(Do(s, NotifyNobody(t)))
  {
    AllCounts(s.threads, t, Idle);
    if s.threads[t].NotifyPush? { CountNone(s.threads, ConsumerBlocked); }
    else { CountNone(s.threads, ProducerBlocked); }
  }

  lemma LockKeepsWakeup<T>(s: State<T>, t: nat)
    requires NoLostWakeup(s) && t < |s.threads| && TakesLock(s.threads[t])
    ensures NoLostWakeup(DoLock(s, t))
  {
    AllCounts(s.threads, t, DoLock(s, t).threads[t]);
  }

  /** No lost wakeup, in every state that any number of threads can reach, however they interleave, with spurious
      wakeups and timeouts. */
  lemma {:induction false} NeverLosesWakeup<T>(s: State<T>, steps: seq<Step<T>>)
    requires NoLostWakeup(s) && Runs(s, steps)
    ensures NoLostWakeup(After(s, steps))
    decreases |steps|
  {
    if steps != [] {
      StepKeepsWakeup(s, steps[0]);
      NeverLosesWakeup(Do(s, steps[0]), steps[1..]);
    }
  }

  lemma InitWakeup<T>(cap: nat, n: nat)
    ensures NoLostWakeup(Init<T>(cap, n))
  {
    var s := Init<T>(cap, n);
    CountNone(s.threads, ConsumerBlocked);
    CountNone(s.threads, ProducerBlocked);
  }

  /** Nothing moves on its own: every thread is outside the queue or waits. */
  predicate Quiescent<T>(s: State<T>) {
    forall i :: 0 <= i < |s.threads| ==>
      s.threads[i].Idle? || s.threads[i].BlockedDequeue? || s.threads[i].BlockedEnqueue?
  }

  /** When nothing moves, a waiting consumer means that the queue is empty and a waiting producer means that it is
      full; with room for one item they are never both stuck. */
  lemma QuiescentIsJustified<T>(cap: nat, n: nat, steps: seq<Step<T>>)
    requires Runs(Init<T>(cap, n), steps) && Quiescent(After(Init<T>(cap, n), steps))
    ensures var s := After(Init<T>(cap, n), steps);
      && (Count(s.threads, ConsumerBlocked) > 0 ==> s.items == [])
      && (Count(s.threads, ProducerBlocked) > 0 ==> |s.items| == s.cap)
      && (cap >= 1 ==> Count(s.threads, ConsumerBlocked) == 0 || Count(s.threads, ProducerBlocked) == 0)
  {
    InitWakeup<T>(cap, n);
    NeverLosesWakeup(Init<T>(cap, n), steps);
    RunKeepsCap(Init<T>(cap, n), steps);
    var s := After(Init<T>(cap, n), steps);
    CountNone(s.threads, PushPending);
    CountNone(s.threads, ConsumerAwake);
    CountNone(s.threads, PopPending);
    CountNone(s.threads, ProducerAwake);
  }

  lemma {:induction false} RunKeepsCap<T>(s: State<T>, steps: seq<Step<T>>)
    requires Runs(s, steps)
    ensures After(s, steps).cap == s.cap && |After(s, steps).threads| == |s.threads|
    decreases |steps|
  {
    if steps != [] { RunKeepsCap(Do(s, steps[0]), steps[1..]); }
  }

  // ------------------------------------------------------------------ conservation and order

  function Items<T>(gone: seq<(T, bool)>): (items: seq<T>)
    ensures |items| == |gone|
  {
    seq(|gone|, i requires 0 <= i < |gone| => gone[i].0)
  }

  /** The items that threads took, in the order in which they took them. */
  function Dequeued<T>(gone: seq<(T, bool)>): seq<T> {
    if gone == [] then []
    else if gone[|gone| - 1].1 then Dequeued(gone[..|gone| - 1]) + [gone[|gone| - 1].0]
    else Dequeued(gone[..|gone| - 1])
  }

  function Dropped<T>(gone: seq<(T, bool)>): nat {
    if gone == [] then 0 else Dropped(gone[..|gone| - 1]) + One(!gone[|gone| - 1].1)
  }

  /** Every pushed item is in the queue or has left it, first in first out, and the overrun counter counts those
      that left without being taken. */
  ghost predicate Conserves<T>(s: State<T>) {
    && |s.items| <= s.cap
    && s.pushed == Items(s.gone) + s.items
    && s.overruns == Dropped(s.gone)
  }

  /** The discard counter counts what was turned away, once the threads that turned it away get to it. */
  predicate CountsDiscards<T>(s: State<T>) {
    s.discards + Count(s.threads, DiscardPending) == |s.rejected|
  }

  lemma StepCountsDiscards<T>(s: State<T>, step: Step<T>)
    requires CountsDiscards(s) && Enabled(s, step)
    ensures CountsDiscards(Do(s, step))
  {
    var s', t := Do(s, step), step.t;
    if step.NotifyOne? {
      var mid := s.threads[t := Idle];
      CountUpdate(s.threads, t, Idle, DiscardPending);
      CountUpdate(mid, step.other, Awake(s.threads[step.other]), DiscardPending);
    } else {
      CountUpdate(s.threads, t, s'.threads[t], DiscardPending);
    }
  }

  lemma StepConserves<T>(s: State<T>, step: Step<T>)
    requires Conserves(s) && Enabled(s, step)
    ensures Conserves(Do(s, step))
  {
    if step.Lock? {
      var o := Section(s.items, s.cap, s.threads[step.t]);
      SectionConserves(s.items, s.cap, s.threads[step.t]);
      Appended(s.gone, o.gone);
      Regroup(Items(s.gone), s.items, if o.pushed then [s.threads[step.t].item] else [], Items(o.gone), o.items);
    }
  }

  lemma Appended<T>(gone: seq<(T, bool)>, more: seq<(T, bool)>)
    requires |more| <= 1
    ensures Items(gone + more) == Items(gone) + Items(more)
    ensures Dropped(gone + more) == Dropped(gone) + (if more != [] then One(!more[0].1) else 0)
    ensures Dequeued(gone + more) == Dequeued(gone) + (if more != [] && more[0].1 then [more[0].0] else [])
  {
    if more == [] {
      assert gone + more == gone;
    } else {
      assert (gone + more)[..|gone|] == gone;
    }
  }

  lemma Regroup<T>(gone: seq<T>, items: seq<T>, pushed: seq<T>, left: seq<T>, rest: seq<T>)
    requires items + pushed == left + rest
    ensures (gone + items) + pushed == (gone + left) + rest
  {
    assert (gone + items) + pushed == gone + (items + pushed);
  }

  /** One section: what was there and what was pushed is what has gone and what is there. */
  lemma SectionConserves<T>(items: seq<T>, cap: nat, pc: Pc<T>)
    requires |items| <= cap && TakesLock(pc)
    ensures var o := Section(items, cap, pc);
      && |o.gone| <= 1 && (o.pushed ==> pc.Enqueuing? || pc.AwakeEnqueue?)
      && items + (if o.pushed then [pc.item] else []) == Items(o.gone) + o.items
      && (o.gone != [] ==> o.gone[0].1 == !o.pushed)
  {
    var o := Section(items, cap, pc);
    if o.pushed { PushConserves(items, cap, pc.item); }
  }

  lemma PushConserves<T>(items: seq<T>, cap: nat, item: T)
    requires |items| <= cap
    ensures var o := Push(items, cap, item);
      items + [item] == Items(o.gone) + o.items
  {
    if |items| == cap {
      assert items + [item] == [(items + [item])[0]] + (items + [item])[1..];
    }
  }

  lemma {:induction false} RunConserves<T>(s: State<T>, steps: seq<Step<T>>)
    requires Conserves(s) && CountsDiscards(s) && Runs(s, steps)
    ensures Conserves(After(s, steps)) && CountsDiscards(After(s, steps))
    decreases |steps|
  {
    if steps != [] {
      StepConserves(s, steps[0]);
      StepCountsDiscards(s, steps[0]);
      RunConserves(Do(s, steps[0]), steps[1..]);
    }
  }

  /** `sub` is `all` with some items left out: `at` tells where its items come from. */
  ghost predicate InOrder<T>(sub: seq<T>, all: seq<T>, at: seq<nat>) {
    && |at| == |sub|
    && (forall i :: 0 <= i < |at| ==> at[i] < |all| && all[at[i]] == sub[i])
    && (forall i, j :: 0 <= i < j < |at| ==> at[i] < at[j])
  }

  lemma {:induction false} DequeuedInOrder<T>(gone: seq<(T, bool)>) returns (at: seq<nat>)
    ensures InOrder(Dequeued(gone), Items(gone), at)
    ensures |Dequeued(gone)| + Dropped(gone) == |gone|
  {
    if gone == [] {
      at := [];
    } else {
      var front, last := gone[..|gone| - 1], gone[|gone| - 1];
      var at' := DequeuedInOrder(front);
      at := if last.1 then at' + [|gone| - 1] else at';
    }
  }

  lemma {:induction false} NothingDropped<T>(gone: seq<(T, bool)>)
    requires Dropped(gone) == 0
    ensures Dequeued(gone) == Items(gone)
  {
    if gone != [] {
      NothingDropped(gone[..|gone| - 1]);
    }
  }

  /** The run uses blocking and discarding pushes only. */
  predicate NeverOverruns<T>(steps: seq<Step<T>>) {
    forall i :: 0 <= i < |steps| && steps[i].CallEnqueue? ==> !steps[i].policy.OverrunOldest?
  }

  predicate NoOverrunner<T>(s: State<T>) {
    s.overruns == 0 && forall i :: 0 <= i < |s.threads| && s.threads[i].Enqueuing? ==>
      !s.threads[i].policy.OverrunOldest?
  }

  lemma {:induction false} RunNeverOverruns<T>(s: State<T>, steps: seq<Step<T>>)
    requires NoOverrunner(s) && Runs(s, steps) && NeverOverruns(steps)
    ensures NoOverrunner(After(s, steps))
    decreases |steps|
  {
    if steps != [] {
      StepNeverOverruns(s, steps[0]);
      RunNeverOverruns(Do(s, steps[0]), steps[1..]);
    }
  }

  lemma StepNeverOverruns<T>(s: State<T>, step: Step<T>)
    requires NoOverrunner(s) && Enabled(s, step) && (step.CallEnqueue? ==> !step.policy.OverrunOldest?)
    ensures NoOverrunner(Do(s, step))
  {
  }

  /** Conservation and order, for every run from an empty queue: what was taken out is an in-order part of what was
      pushed, every pushed item was taken, overrun or is still queued, and every rejected item is counted or about
      to be. Without overrunning pushes, what was taken followed by what is queued is exactly what was pushed. */
  lemma QueueConserves<T>(cap: nat, n: nat, steps: seq<Step<T>>) returns (at: seq<nat>)
    requires Runs(Init<T>(cap, n), steps)
    ensures var s := After(Init<T>(cap, n), steps);
      && InOrder(Dequeued(s.gone), s.pushed, at)
      && |s.pushed| == |Dequeued(s.gone)| + |s.items| + s.overruns
      && |s.rejected| == s.discards + Count(s.threads, DiscardPending)
      && (NeverOverruns(steps) ==> Dequeued(s.gone) + s.items == s.pushed && s.overruns == 0)
  {
    var s := After(Init<T>(cap, n), steps);
    CountNone(Init<T>(cap, n).threads, DiscardPending);
    RunConserves(Init<T>(cap, n), steps);
    at := DequeuedInOrder(s.gone);
    if NeverOverruns(steps) {
      RunNeverOverruns(Init<T>(cap, n), steps);
      NothingDropped(s.gone);
    }
  }

  // ------------------------------------------------------------------ what becomes of an item

  /** A thread that has called in with that policy takes the mutex for the first time. */
  predicate Locks<T>(s: State<T>, step: Step<T>, policy: Policy) {
    step.Lock? && step.t < |s.threads| && s.threads[step.t].Enqueuing? && s.threads[step.t].policy == policy
  }

  /** The mutex is taken to push, and nobody is to be turned away or to wait. */
  predicate Pushes<T>(s: State<T>, step: Step<T>) {
    || Locks(s, step, OverrunOldest)
    || (|s.items| < s.cap
        && (Locks(s, step, Block) || Locks(s, step, DiscardNew)
            || (step.Lock? && step.t < |s.threads| && s.threads[step.t].AwakeEnqueue?)))
  }

  /** The mutex is taken to take an item out, also by a thread whose time is over. */
  predicate LocksToTake<T>(s: State<T>, step: Step<T>) {
    && step.Lock? && step.t < |s.threads|
    && (s.threads[step.t].Dequeuing? || s.threads[step.t].AwakeDequeue? || s.threads[step.t].TimedOut?)
  }

  lemma SectionMeans<T>(items: seq<T>, cap: nat, pc: Pc<T>)
    requires |items| <= cap && TakesLock(pc)
    ensures var o, full, called := Section(items, cap, pc), |items| == cap, pc.Enqueuing?;
      && (o.pc.Discarding? <==> called && pc.policy.DiscardNew? && full)
      && (o.pushed <==> (called && (pc.policy.OverrunOldest? || !full)) || (pc.AwakeEnqueue? && !full))
      && (o.pushed ==> |o.gone| == One(called && pc.policy.OverrunOldest? && full) && (o.gone != [] ==> !o.gone[0].1))
      && (!o.pushed ==>
          o.gone == if !called && !pc.AwakeEnqueue? && items != [] then [(items[0], true)] else [])
  {
  }

  lemma LockIs<T>(s: State<T>, step: Step<T>, o: Outcome<T>, pushed: seq<T>, rejected: seq<T>)
    requires Enabled(s, step) && step.Lock? && o == Section(s.items, s.cap, s.threads[step.t])
    requires pushed == if o.pushed then [s.threads[step.t].item] else []
    requires rejected == if o.pc.Discarding? then [s.threads[step.t].item] else []
    ensures var s' := Do(s, step);
      && s'.threads == s.threads[step.t := o.pc] && s'.gone == s.gone + o.gone
      && s'.overruns == s.overruns + (if o.pushed then |o.gone| else 0)
      && s'.pushed == s.pushed + pushed && s'.rejected == s.rejected + rejected
  {
  }

  lemma LockMeans<T>(s: State<T>, step: Step<T>, o: Outcome<T>)
    requires Enabled(s, step) && step.Lock? && o == Section(s.items, s.cap, s.threads[step.t])
    ensures var full := |s.items| == s.cap;
      && (o.pc.Discarding? <==> Locks(s, step, DiscardNew) && full)
      && (o.pushed <==> Pushes(s, step))
      && (if o.pushed then |o.gone| else 0) == One(Locks(s, step, OverrunOldest) && full)
      && |o.gone| <= 1
      && (if o.gone != [] && o.gone[0].1 then [o.gone[0].0] else [])
        == (if LocksToTake(s, step) && s.items != [] then [s.items[0]] else [])
  {
    SectionMeans(s.items, s.cap, s.threads[step.t]);
  }

  /** An item is turned away only by a discarding call that finds the queue full, and one is overrun only by an
      overrunning call that does; every other thread that wants to push into a queue with room pushes, and every thread
      that wants an item takes the oldest if there is one. */
  lemma StepMeans<T>(s: State<T>, step: Step<T>)
    requires Enabled(s, step)
    ensures var s', full := Do(s, step), |s.items| == s.cap;
      && s'.rejected == s.rejected + (if Locks(s, step, DiscardNew) && full then [s.threads[step.t].item] else [])
      && s'.overruns == s.overruns + One(Locks(s, step, OverrunOldest) && full)
      && s'.pushed == s.pushed + (if Pushes(s, step) then [s.threads[step.t].item] else [])
      && Dequeued(s'.gone)
        == Dequeued(s.gone) + (if LocksToTake(s, step) && s.items != [] then [s.items[0]] else [])
  {
    if step.Lock? {
      var o := Section(s.items, s.cap, s.threads[step.t]);
      LockMeans(s, step, o);
      LockIs(s, step, o, if o.pushed then [s.threads[step.t].item] else [],
             if o.pc.Discarding? then [s.threads[step.t].item] else []);
      Appended(s.gone, o.gone);
    }
  }

  /** The items that a run turns away, one for every discarding call that finds the queue full. */
  function TurnedAway<T>(s: State<T>, steps: seq<Step<T>>): seq<T>
    requires Runs(s, steps)
    decreases |steps|
  {
    if steps == [] then []
    else
      (if Locks(s, steps[0], DiscardNew) && |s.items| == s.cap then [s.threads[steps[0].t].item] else [])
      + TurnedAway(Do(s, steps[0]), steps[1..])
  }

  /** How many overrunning calls of a run find the queue full. */
  function Overrunning<T>(s: State<T>, steps: seq<Step<T>>): nat
    requires Runs(s, steps)
    decreases |steps|
  {
    if steps == [] then 0
    else
      One(Locks(s, steps[0], OverrunOldest) && |s.items| == s.cap) + Overrunning(Do(s, steps[0]), steps[1..])
  }

  lemma {:induction false} RunMeans<T>(s: State<T>, steps: seq<Step<T>>)
    requires Runs(s, steps)
    ensures After(s, steps).rejected == s.rejected + TurnedAway(s, steps)
    ensures After(s, steps).overruns == s.overruns + Overrunning(s, steps)
    decreases |steps|
  {
    if steps != [] {
      var next := Do(s, steps[0]);
      var first := if Locks(s, steps[0], DiscardNew) && |s.items| == s.cap then [s.threads[steps[0].t].item] else [];
      StepMeans(s, steps[0]);
      RunMeans(next, steps[1..]);
      Associates(s.rejected, first, TurnedAway(next, steps[1..]));
    }
  }

  lemma Associates<T>(a: seq<T>, b: seq<T>, c: seq<T>)
    ensures (a + b) + c == a + (b + c)
  {
  }

  /** How many calls come with that item. */
  function Called<T(==)>(steps: seq<Step<T>>, item: T): nat {
    if steps == [] then 0
    else One(steps[0].CallEnqueue? && steps[0].item == item) + Called(steps[1..], item)
  }

  /** How many threads still have that item in their hands. */
  function Held<T(==)>(threads: seq<Pc<T>>, item: T): nat {
    if threads == [] then 0 else One(Holds(threads[0], item)) + Held(threads[1..], item)
  }

  predicate Holds<T(==)>(pc: Pc<T>, item: T) {
    (pc.Enqueuing? || pc.BlockedEnqueue? || pc.AwakeEnqueue?) && pc.item == item
  }

  lemma {:induction false} HeldUpdate<T>(threads: seq<Pc<T>>, t: nat, pc: Pc<T>, item: T)
    requires t < |threads|
    ensures Held(threads[t := pc], item) + One(Holds(threads[t], item)) == Held(threads, item) + One(Holds(pc, item))
  {
    if t == 0 {
      assert threads[0 := pc][1..] == threads[1..];
    } else {
      assert threads[t := pc][1..] == threads[1..][t - 1 := pc];
      HeldUpdate(threads[1..], t - 1, pc, item);
    }
  }

  function Copies<T(==)>(items: seq<T>, item: T): nat {
    if items == [] then 0 else Copies(items[..|items| - 1], item) + One(items[|items| - 1] == item)
  }

  lemma CopiesOfMore<T>(items: seq<T>, more: seq<T>, item: T)
    requires |more| <= 1
    ensures Copies(items + more, item) == Copies(items, item) + (if more == [] then 0 else One(more[0] == item))
  {
    if more == [] {
      assert items + more == items;
    } else {
      assert (items + more)[..|items|] == items;
    }
  }

  /** Where the copies of an item are: pushed, turned away, or with a thread. */
  function Placed<T(==)>(s: State<T>, item: T): nat {
    Copies(s.pushed, item) + Copies(s.rejected, item) + Held(s.threads, item)
  }

  /** A section pushes the item of its thread, or turns it away, or leaves it with the thread. */
  lemma SectionPlaces<T>(items: seq<T>, cap: nat, pc: Pc<T>, item: T)
    requires |items| <= cap && TakesLock(pc)
    ensures var o := Section(items, cap, pc);
      One(Holds(pc, item))
        == One(Holds(o.pc, item)) + (if o.pushed || o.pc.Discarding? then One(pc.item == item) else 0)
        && !(o.pushed && o.pc.Discarding?)
  {
  }

  lemma LockPlaces<T>(s: State<T>, step: Step<T>, item: T)
    requires Enabled(s, step) && step.Lock?
    ensures Placed(Do(s, step), item) == Placed(s, item)
  {
    var t, pc := step.t, s.threads[step.t];
    var o := Section(s.items, s.cap, pc);
    var pushed, rejected := if o.pushed then [pc.item] else [], if o.pc.Discarding? then [pc.item] else [];
    LockIs(s, step, o, pushed, rejected);
    SectionPlaces(s.items, s.cap, pc, item);
    HeldUpdate(s.threads, t, o.pc, item);
    CopiesOfMore(s.pushed, pushed, item);
    CopiesOfMore(s.rejected, rejected, item);
  }

  lemma StepPlaces<T>(s: State<T>, step: Step<T>, item: T)
    requires Enabled(s, step)
    ensures Placed(Do(s, step), item) == Placed(s, item) + One(step.CallEnqueue? && step.item == item)
  {
    var t := step.t;
    if step.Lock? {
      LockPlaces(s, step, item);
    } else if step.NotifyOne? {
      HeldUpdate(s.threads, t, Idle, item);
      HeldUpdate(s.threads[t := Idle], step.other, Awake(s.threads[step.other]), item);
    } else {
      HeldUpdate(s.threads, t, Do(s, step).threads[t], item);
    }
  }

  lemma {:induction false} RunPlaces<T>(s: State<T>, steps: seq<Step<T>>, item: T)
    requires Runs(s, steps)
    ensures Placed(After(s, steps), item) == Placed(s, item) + Called(steps, item)
    decreases |steps|
  {
    if steps != [] {
      StepPlaces(s, steps[0], item);
      RunPlaces(Do(s, steps[0]), steps[1..], item);
    }
  }

  lemma {:induction false} NothingHeld<T>(threads: seq<Pc<T>>, item: T)
    requires forall i :: 0 <= i < |threads| ==> threads[i].Idle?
    ensures Held(threads, item) == 0
  {
    if threads != [] {
      NothingHeld(threads[1..], item);
    }
  }

  /** No call loses its item or pushes it twice: over any run an item that calls came with so many times has been
      pushed, or turned away by a discarding call that found the queue full, or is still in the hands of a thread, so
      many times in all. */
  lemma QueueAccounts<T>(cap: nat, n: nat, steps: seq<Step<T>>, item: T)
    requires Runs(Init<T>(cap, n), steps)
    ensures var s := After(Init<T>(cap, n), steps);
      && Called(steps, item) == Copies(s.pushed, item) + Copies(s.rejected, item) + Held(s.threads, item)
      && s.rejected == TurnedAway(Init<T>(cap, n), steps)
      && s.overruns == Overrunning(Init<T>(cap, n), steps)
  {
    RunPlaces(Init<T>(cap, n), steps, item);
    RunMeans(Init<T>(cap, n), steps);
    NothingHeld(Init<T>(cap, n).threads, item);
  }
}
