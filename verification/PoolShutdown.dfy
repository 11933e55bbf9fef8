/** What the destructor of the thread pool can rely on: it is never stuck, it comes to an end, and when it does the
    queue is drained. */
module PoolShutdown {
  import opened MpmcQueue
  import opened MpmcProtocol
  import opened ThreadPool

  // ------------------------------------------------------------------ whole runs

  predicate PoolRuns(p: Pool, steps: seq<PoolStep>)
    requires Shaped(p)
    decreases |steps|
  {
    steps == [] || (Can(p, steps[0]) && PoolRuns(Does(p, steps[0]), steps[1..]))
  }

  function PoolAfter(p: Pool, steps: seq<PoolStep>): (p': Pool)
    requires Shaped(p) && PoolRuns(p, steps)
    ensures Shaped(p') && |p'.workers| == |p.workers|
    decreases |steps|
  {
    if steps == [] then p else PoolAfter(Does(p, steps[0]), steps[1..])
  }

  lemma {:induction false} AllLive(cells: seq<Cell>)
    requires forall i :: 0 <= i < |cells| ==> cells[i] == (Ready, Idle)
    ensures LiveCount(cells) == |cells| && Hands(cells) == multiset{}
  {
    if cells != [] { AllLive(cells[1..]); }
  }

  lemma CreateInv(maxItems: nat, threadsN: nat, clients: nat)
    requires Create(maxItems, threadsN, clients).Created?
    ensures Inv(Create(maxItems, threadsN, clients).pool)
  {
    var p := Create(maxItems, threadsN, clients).pool;
    InitWakeup<Msg>(maxItems, threadsN + 1 + clients);
    AllLive(Cells(p));
    forall i | 0 <= i < |p.q.threads| ensures RoleOk(p, i) {
    }
  }

  /** In every state the pool can reach: the live workers are exactly the terminate messages queued and not yet
      posted, terminate messages come last, and nothing taken out of the queue is lost. */
  lemma {:induction false} RunKeeps(p: Pool, steps: seq<PoolStep>)
    requires Inv(p) && PoolRuns(p, steps)
    ensures Inv(PoolAfter(p, steps)) && PoolAfter(p, steps).q.cap == p.q.cap
    decreases |steps|
  {
    if steps != [] {
      StepKeeps(p, steps[0]);
      RunKeeps(Does(p, steps[0]), steps[1..]);
    }
  }

  // ------------------------------------------------------------------ drained

  predicate AllExited(p: Pool) {
    forall i :: 0 <= i < |p.workers| ==> p.workers[i].Exited?
  }

  lemma {:induction false} ExitedHands(cells: seq<Cell>)
    requires forall i :: 0 <= i < |cells| ==> cells[i].0.Exited?
    ensures LiveCount(cells) == 0
    ensures Hands(cells)[Terminate] == |cells|
    ensures forall m: Msg :: !m.Terminate? ==> Hands(cells)[m] == 0
  {
    if cells != [] { ExitedHands(cells[1..]); }
  }

  /** When the last worker has been joined the queue is empty and everything has been posted, each worker has taken
      one terminate message, and each other message was processed as often as it was taken out. Together with the
      conservation of the queue: every message pushed was processed or overrun. */
  lemma Drained(maxItems: nat, threadsN: nat, clients: nat, steps: seq<PoolStep>)
    requires Create(maxItems, threadsN, clients).Created?
    requires var p := Create(maxItems, threadsN, clients).pool;
      PoolRuns(p, steps) && AllExited(PoolAfter(p, steps))
    ensures var p := PoolAfter(Create(maxItems, threadsN, clients).pool, steps);
      && p.q.items == [] && Unposted(p) == 0
      && p.q.pushed == Items(p.q.gone) && |p.q.pushed| == |Dequeued(p.q.gone)| + p.q.overruns
      && multiset(Dequeued(p.q.gone))[Terminate] == threadsN
      && (forall m: Msg :: !m.Terminate? ==> multiset(p.processed)[m] == multiset(Dequeued(p.q.gone))[m])
  {
    var p0 := Create(maxItems, threadsN, clients).pool;
    var p := PoolAfter(p0, steps);
    CreateInv(maxItems, threadsN, clients);
    RunKeeps(p0, steps);
    ExitedHands(Cells(p));
    TermsBound(p.q.items);
    var at := DequeuedInOrder(p.q.gone);
    assert multiset(p.processed)[Terminate] == 0;
  }

  // ------------------------------------------------------------------ never stuck

  /** Every step but a wakeup without a notification. */
  predicate Productive(step: PoolStep) {
    !(step.Queue? && step.step.WakeSpuriously?)
  }

  /** A thread that is about to notify can do so. */
  lemma CanNotify(p: Pool, t: nat) returns (step: PoolStep)
    requires Inv(p) && t < |p.q.threads| && (p.q.threads[t].NotifyPush? || p.q.threads[t].NotifyPop?)
    ensures Can(p, step) && Productive(step)
  {
    if other :| 0 <= other < |p.q.threads| && WaitsFor(p.q.threads[other], p.q.threads[t]) {
      step := Queue(NotifyOne(t, other));
    } else {
      step := Queue(NotifyNobody(t));
    }
  }

  /** A worker that has not left and does not wait can go on. */
  lemma WorkerGoesOn(p: Pool, w: nat) returns (step: PoolStep)
    requires Inv(p) && w < |p.workers| && !p.workers[w].Exited? && !p.q.threads[w].BlockedDequeue?
    ensures Can(p, step) && Productive(step)
  {
    assert RoleOk(p, w);
    if p.q.threads[w].NotifyPop? {
      step := CanNotify(p, w);
    } else if p.workers[w].Holding? {
      step := Handle(w);
    } else if p.q.threads[w].Idle? {
      step := Queue(CallDequeue(w, false));
    } else {
      step := Queue(Lock(w));
    }
  }

  /** The destructor can go on unless it waits or has posted everything. */
  lemma DestructorGoesOn(p: Pool) returns (step: PoolStep)
    requires Inv(p) && p.closing && !p.q.threads[|p.workers|].BlockedEnqueue?
    requires p.toPost > 0 || !p.q.threads[|p.workers|].Idle?
    ensures Can(p, step) && Productive(step)
  {
    var d := |p.workers|;
    assert RoleOk(p, d);
    if p.q.threads[d].Idle? {
      step := Post;
    } else if p.q.threads[d].NotifyPush? {
      step := CanNotify(p, d);
    } else {
      step := Queue(Lock(d));
    }
  }

  lemma {:induction false} CountSome<T>(threads: seq<Pc<T>>, t: nat, k: Kind)
    requires t < |threads| && KindOf(threads[t]) == k
    ensures Count(threads, k) > 0
  {
    if t > 0 { CountSome(threads[1..], t - 1, k); }
  }

  lemma {:induction false} SomeLive(cells: seq<Cell>, w: nat)
    requires w < |cells| && Live(cells[w])
    ensures LiveCount(cells) > 0
  {
    if w > 0 { SomeLive(cells[1..], w - 1); }
  }

  /** The workers all wait or are gone, and the destructor waits or is done. */
  predicate Stuck(p: Pool)
    requires Shaped(p)
  {
    && (forall i :: 0 <= i < |p.workers| ==> p.workers[i].Exited? || p.q.threads[i].BlockedDequeue?)
    && (p.q.threads[|p.workers|].BlockedEnqueue? || (p.toPost == 0 && p.q.threads[|p.workers|].Idle?))
  }

  /** Then nobody is awake and nobody is about to notify. */
  lemma StuckIsQuiet(p: Pool)
    requires RolesOk(p) && p.closing && Stuck(p)
    ensures var ts := p.q.threads;
      Count(ts, PushPending) == Count(ts, ConsumerAwake) == Count(ts, PopPending) == Count(ts, ProducerAwake) == 0
  {
    var ts := p.q.threads;
    forall i | 0 <= i < |ts| ensures ts[i].Idle? || ts[i].BlockedDequeue? || ts[i].BlockedEnqueue? {
      assert RoleOk(p, i);
    }
    CountNone(ts, PushPending);
    CountNone(ts, ConsumerAwake);
    CountNone(ts, PopPending);
    CountNone(ts, ProducerAwake);
  }

  /** A waiting worker would then mean an empty queue. */
  lemma WaitingOnEmpty(p: Pool, w: nat)
    requires RolesOk(p) && NoLostWakeup(p.q) && p.closing && Stuck(p) && w < |p.workers|
    requires p.q.threads[w].BlockedDequeue?
    ensures p.q.items == []
  {
    StuckIsQuiet(p);
    CountSome(p.q.threads, w, ConsumerBlocked);
  }

  /** And a waiting destructor would mean a full one. */
  lemma WaitingOnFull(p: Pool)
    requires RolesOk(p) && NoLostWakeup(p.q) && p.closing && Stuck(p) && p.q.threads[|p.workers|].BlockedEnqueue?
    ensures |p.q.items| == p.q.cap
  {
    StuckIsQuiet(p);
    CountSome(p.q.threads, |p.workers|, ProducerBlocked);
  }

  /** A live worker with an empty queue has a terminate message still to come. */
  lemma StillToPost(p: Pool, w: nat)
    requires RolesOk(p) && Balanced(p) && p.q.items == [] && w < |p.workers| && p.q.threads[w].BlockedDequeue?
    ensures Unposted(p) > 0
  {
    assert RoleOk(p, w);
    SomeLive(Cells(p), w);
  }

  /** So with room for one message, no worker can be waiting. */
  lemma StuckMeansGone(p: Pool)
    requires Inv(p) && p.closing && p.q.cap >= 1 && Stuck(p)
    ensures AllExited(p)
  {
    forall w | 0 <= w < |p.workers| ensures p.workers[w].Exited? {
      if !p.workers[w].Exited? {
        WaitingOnEmpty(p, w);
        StillToPost(p, w);
        if p.q.threads[|p.workers|].BlockedEnqueue? { WaitingOnFull(p); }
        assert false;
      }
    }
  }

  /** The destructor never deadlocks: with room for one message there is always a step to take that is not a
      spurious wakeup, until every worker has left. */
  lemma NeverStuck(p: Pool) returns (step: PoolStep)
    requires Inv(p) && p.closing && p.q.cap >= 1 && !AllExited(p)
    ensures Can(p, step) && Productive(step)
  {
    var d := |p.workers|;
    if w :| 0 <= w < |p.workers| && !p.workers[w].Exited? && !p.q.threads[w].BlockedDequeue? {
      step := WorkerGoesOn(p, w);
    } else {
      var w :| 0 <= w < |p.workers| && !p.workers[w].Exited?;
      if !p.q.threads[d].BlockedEnqueue? && (p.toPost > 0 || !p.q.threads[d].Idle?) {
        step := DestructorGoesOn(p);
      } else {
        assert Stuck(p);
        StuckMeansGone(p);
        assert false;
      }
    }
  }

  // ------------------------------------------------------------------ it comes to an end

  /** How much a worker still has to do with what it has. */
  function WorkerWeight(cell: Cell): nat {
    if cell.0.Exited? then 0
    else if cell.0.Holding? then 3
    else if cell.1.NotifyPop? then 5
    else if cell.1.Idle? then 2
    else if cell.1.BlockedDequeue? then 0
    else 1
  }

  function WorkersWeight(cells: seq<Cell>): nat {
    if cells == [] then 0 else WorkerWeight(cells[0]) + WorkersWeight(cells[1..])
  }

  function DestructorWeight(pc: Pc<Msg>): nat {
    if pc.Idle? then 0 else if pc.NotifyPush? then 2 else if pc.BlockedEnqueue? then 8 else 9
  }

  /** What is left of the shutdown. */
  function Weight(p: Pool): nat
    requires Shaped(p)
  {
    10 * p.toPost + 5 * |p.q.items| + DestructorWeight(p.q.threads[|p.workers|]) + WorkersWeight(Cells(p))
  }

  lemma {:induction false} WeightUpdate(cells: seq<Cell>, i: nat, c: Cell)
    requires i < |cells|
    ensures WorkersWeight(cells[i := c]) + WorkerWeight(cells[i]) == WorkersWeight(cells) + WorkerWeight(c)
  {
    if i == 0 {
      assert cells[0 := c][1..] == cells[1..];
    } else {
      assert cells[i := c][1..] == cells[1..][i - 1 := c];
      WeightUpdate(cells[1..], i - 1, c);
    }
  }

  /** The change of one cell, or of none. */
  lemma CellChange(p: Pool, p': Pool, w: nat)
    requires Shaped(p) && Shaped(p') && |p'.workers| == |p.workers| && w < |p.workers|
    requires forall i :: 0 <= i < |p.workers| && i != w ==>
      p'.workers[i] == p.workers[i] && p'.q.threads[i] == p.q.threads[i]
    ensures WorkersWeight(Cells(p')) + WorkerWeight((p.workers[w], p.q.threads[w]))
      == WorkersWeight(Cells(p)) + WorkerWeight((p'.workers[w], p'.q.threads[w]))
  {
    assert Cells(p') == Cells(p)[w := (p'.workers[w], p'.q.threads[w])];
    WeightUpdate(Cells(p), w, (p'.workers[w], p'.q.threads[w]));
  }

  lemma SameCells(p: Pool, p': Pool)
    requires Shaped(p) && Shaped(p') && p'.workers == p.workers
    requires forall i :: 0 <= i < |p.workers| ==> p'.q.threads[i] == p.q.threads[i]
    ensures WorkersWeight(Cells(p')) == WorkersWeight(Cells(p))
  {
    assert Cells(p') == Cells(p);
  }

  lemma WorkerLockWeight(p: Pool, p': Pool, t: nat)
    requires RolesOk(p) && Can(p, Queue(Lock(t))) && t < |p.workers| && p' == Does(p, Queue(Lock(t)))
    ensures Shaped(p') && Weight(p') < Weight(p)
  {
    assert RoleOk(p, t);
    CellChange(p, p', t);
  }

  lemma WorkerLockLightens(p: Pool, t: nat)
    requires Inv(p) && Can(p, Queue(Lock(t))) && t < |p.workers|
    ensures Weight(Does(p, Queue(Lock(t)))) < Weight(p)
  {
    WorkerLockWeight(p, Does(p, Queue(Lock(t))), t);
  }

  lemma DestructorLockLightens(p: Pool)
    requires Inv(p) && p.closing && Can(p, Queue(Lock(|p.workers|)))
    ensures Weight(Does(p, Queue(Lock(|p.workers|)))) < Weight(p)
  {
    assert RoleOk(p, |p.workers|);
    SameCells(p, Does(p, Queue(Lock(|p.workers|))));
  }

  lemma LockLightens(p: Pool, t: nat)
    requires Inv(p) && p.closing && Can(p, Queue(Lock(t)))
    ensures Weight(Does(p, Queue(Lock(t)))) < Weight(p)
  {
    assert RoleOk(p, t);
    if t < |p.workers| { WorkerLockLightens(p, t); } else { DestructorLockLightens(p); }
  }

  /** A worker that notifies wakes the destructor or nobody; the destructor wakes a worker or nobody. */
  lemma WorkerNotifyLightens(p: Pool, step: Step<Msg>)
    requires RolesOk(p) && p.closing && Can(p, Queue(step)) && (step.NotifyOne? || step.NotifyNobody?)
    requires step.t < |p.workers|
    ensures Weight(Does(p, Queue(step))) < Weight(p)
  {
    assert RoleOk(p, step.t);
    if step.NotifyOne? { assert RoleOk(p, step.other); }
    CellChange(p, Does(p, Queue(step)), step.t);
  }

  lemma DestructorNotifyLightens(p: Pool, step: Step<Msg>)
    requires RolesOk(p) && Can(p, Queue(step)) && (step.NotifyOne? || step.NotifyNobody?) && step.t == |p.workers|
    ensures Weight(Does(p, Queue(step))) < Weight(p)
  {
    assert RoleOk(p, step.t);
    if step.NotifyOne? {
      assert RoleOk(p, step.other);
      CellChange(p, Does(p, Queue(step)), step.other);
    } else {
      SameCells(p, Does(p, Queue(step)));
    }
  }

  lemma NotifyLightens(p: Pool, step: Step<Msg>)
    requires Inv(p) && p.closing && Can(p, Queue(step)) && (step.NotifyOne? || step.NotifyNobody?)
    ensures Weight(Does(p, Queue(step))) < Weight(p)
  {
    assert RoleOk(p, step.t);
    if step.t < |p.workers| { WorkerNotifyLightens(p, step); } else { DestructorNotifyLightens(p, step); }
  }

  lemma CallLightens(p: Pool, step: Step<Msg>)
    requires RolesOk(p) && p.closing && Can(p, Queue(step))
    requires step.CallEnqueue? || step.CallDequeue? || step.CountDiscard? || step.TimeOut?
    ensures Weight(Does(p, Queue(step))) < Weight(p)
  {
    var p', t := Does(p, Queue(step)), step.t;
    assert RoleOk(p, t);
    if t < |p.workers| { CellChange(p, p', t); }
  }

  lemma HandleLightens(p: Pool, w: nat)
    requires RolesOk(p) && Can(p, Handle(w))
    ensures Weight(Does(p, Handle(w))) < Weight(p)
  {
    assert RoleOk(p, w);
    CellChange(p, Handled(p, w), w);
  }

  lemma PostLightens(p: Pool)
    requires Inv(p) && Can(p, Post)
    ensures Weight(Does(p, Post)) < Weight(p)
  {
    SameCells(p, Does(p, Post));
  }

  /** Every productive step makes less of the shutdown. */
  lemma ProductiveLightens(p: Pool, step: PoolStep)
    requires Inv(p) && p.closing && Can(p, step) && Productive(step)
    ensures Weight(Does(p, step)) < Weight(p)
  {
    match step
    case Queue(qs) =>
      match qs {
        case Lock(t) => LockLightens(p, t);
        case NotifyOne(_, _) => NotifyLightens(p, qs);
        case NotifyNobody(_) => NotifyLightens(p, qs);
        case _ => CallLightens(p, qs);
      }
    case Handle(w) => HandleLightens(p, w);
    case Post => PostLightens(p);
  }

  /** And a spurious wakeup makes it more by one. */
  lemma SpuriousWeighsOne(p: Pool, t: nat)
    requires RolesOk(p) && p.closing && Can(p, Queue(WakeSpuriously(t)))
    ensures Weight(Does(p, Queue(WakeSpuriously(t)))) == Weight(p) + 1
  {
    var p' := Does(p, Queue(WakeSpuriously(t)));
    assert RoleOk(p, t);
    if t < |p.workers| { CellChange(p, p', t); } else { SameCells(p, p'); }
  }

  function Spurious(steps: seq<PoolStep>): nat {
    if steps == [] then 0 else (if Productive(steps[0]) then 0 else 1) + Spurious(steps[1..])
  }

  /** The destructor comes to an end: from any state in which it has started, no run is longer than what is left of
      the shutdown plus two steps for each spurious wakeup. */
  lemma {:induction false} ShutdownEnds(p: Pool, steps: seq<PoolStep>)
    requires Inv(p) && p.closing && PoolRuns(p, steps)
    ensures |steps| + Weight(PoolAfter(p, steps)) <= Weight(p) + 2 * Spurious(steps)
    decreases |steps|
  {
    if steps != [] {
      StepKeeps(p, steps[0]);
      if Productive(steps[0]) { ProductiveLightens(p, steps[0]); } else { SpuriousWeighsOne(p, steps[0].step.t); }
      ShutdownEnds(Does(p, steps[0]), steps[1..]);
    }
  }
}
