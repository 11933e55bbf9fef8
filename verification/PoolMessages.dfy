/** What becomes of the messages that clients post to the pool: each one is processed, turned away or overrun, and none
    of the last two happens to blocking clients. */
module PoolMessages {
  import opened MpmcQueue
  import opened MpmcProtocol
  import opened ThreadPool
  import opened PoolShutdown

  /** The constructor takes 1 to 1000 threads, and makes as many workers and as much room as it is asked to. */
  lemma CreateMeans(maxItems: nat, threadsN: nat, clients: nat)
    ensures Create(maxItems, threadsN, clients).Created? <==> 1 <= threadsN <= 1000
    ensures Create(maxItems, threadsN, clients).Created? ==>
      var p := Create(maxItems, threadsN, clients).pool;
      && |p.workers| == p.toPost == threadsN && p.q.cap == maxItems && p.q.items == []
      && |p.q.threads| == threadsN + 1 + clients && !p.closing && p.processed == []
  {
  }

  /** Until the destructor starts an idle client may post any work with any policy, and a worker that has nothing to do
      asks for a message. */
  lemma ClientsMayPost(p: Pool, t: nat, msg: Msg, policy: Policy)
    requires Inv(p) && t < |p.q.threads| && p.q.threads[t].Idle?
    ensures t > |p.workers| && !p.closing && !msg.Terminate? ==> Can(p, Queue(CallEnqueue(t, msg, policy)))
    ensures t < |p.workers| && p.workers[t].Ready? ==> Can(p, Queue(CallDequeue(t, false)))
  {
  }

  // ------------------------------------------------------------------ the pool's steps as steps of its queue

  function QueueSteps(p: Pool, steps: seq<PoolStep>): seq<Step<Msg>>
    requires Shaped(p)
  {
    if steps == [] then []
    else
      (match steps[0]
       case Queue(step) => [step]
       case Post => [CallEnqueue(|p.workers|, Terminate, Block)]
       case _ => [])
      + QueueSteps(p, steps[1..])
  }

  lemma {:induction false} SameSteps(p: Pool, p': Pool, steps: seq<PoolStep>)
    requires Shaped(p) && Shaped(p') && |p.workers| == |p'.workers|
    ensures QueueSteps(p, steps) == QueueSteps(p', steps)
    decreases |steps|
  {
    if steps != [] {
      SameSteps(p, p', steps[1..]);
    }
  }

  lemma FirstStep(q: State<Msg>, step: Step<Msg>, rest: seq<Step<Msg>>)
    requires Enabled(q, step) && Runs(Do(q, step), rest)
    ensures Runs(q, [step] + rest) && After(q, [step] + rest) == After(Do(q, step), rest)
  {
    assert ([step] + rest)[1..] == rest;
  }

  lemma {:induction false} QueueRuns(p: Pool, steps: seq<PoolStep>)
    requires Shaped(p) && PoolRuns(p, steps)
    ensures Runs(p.q, QueueSteps(p, steps)) && After(p.q, QueueSteps(p, steps)) == PoolAfter(p, steps).q
    decreases |steps|
  {
    if steps != [] {
      var p' := Does(p, steps[0]);
      var rest := QueueSteps(p, steps[1..]);
      QueueRuns(p', steps[1..]);
      SameSteps(p, p', steps[1..]);
      match steps[0]
      case Queue(step) => FirstStep(p.q, step, rest);
      case Post => FirstStep(p.q, CallEnqueue(|p.workers|, Terminate, Block), rest);
      case Handle(_) => assert [] + rest == rest;
      case Close => assert [] + rest == rest;
    }
  }

  // ------------------------------------------------------------------ counting messages

  /** How often clients post that message. */
  function Posted(steps: seq<PoolStep>, msg: Msg): nat {
    if steps == [] then 0
    else
      One(steps[0].Queue? && steps[0].step.CallEnqueue? && steps[0].step.item == msg) + Posted(steps[1..], msg)
  }

  lemma {:induction false} PostedIsCalled(p: Pool, steps: seq<PoolStep>, msg: Msg)
    requires Shaped(p) && !msg.Terminate?
    ensures Called(QueueSteps(p, steps), msg) == Posted(steps, msg)
    decreases |steps|
  {
    if steps != [] {
      PostedIsCalled(p, steps[1..], msg);
      var rest := QueueSteps(p, steps[1..]);
      match steps[0]
      case Queue(step) => assert ([step] + rest)[1..] == rest;
      case Post => assert ([CallEnqueue(|p.workers|, Terminate, Block)] + rest)[1..] == rest;
      case Handle(_) => assert [] + rest == rest;
      case Close => assert [] + rest == rest;
    }
  }

  /** How many copies were overrun. */
  function Overrun(gone: seq<(Msg, bool)>, msg: Msg): nat {
    if gone == [] then 0
    else Overrun(gone[..|gone| - 1], msg) + One(gone[|gone| - 1] == (msg, false))
  }

  lemma {:induction false} GoneCopies(gone: seq<(Msg, bool)>, msg: Msg)
    ensures Copies(Items(gone), msg) == Copies(Dequeued(gone), msg) + Overrun(gone, msg)
    decreases |gone|
  {
    if gone != [] {
      var init, last := gone[..|gone| - 1], gone[|gone| - 1];
      GoneCopies(init, msg);
      assert Items(gone)[..|gone| - 1] == Items(init);
      if last.1 {
        assert (Dequeued(init) + [last.0])[..|Dequeued(init)|] == Dequeued(init);
      }
    }
  }

  lemma {:induction false} CopiesAreCount(items: seq<Msg>, msg: Msg)
    ensures Copies(items, msg) == multiset(items)[msg]
    decreases |items|
  {
    if items != [] {
      CopiesAreCount(items[..|items| - 1], msg);
      assert items == items[..|items| - 1] + [items[|items| - 1]];
    }
  }

  lemma {:induction false} NobodyHolds(threads: seq<Pc<Msg>>, msg: Msg)
    requires forall i :: 0 <= i < |threads| ==> !Holds(threads[i], msg)
    ensures Held(threads, msg) == 0
    decreases |threads|
  {
    if threads != [] {
      NobodyHolds(threads[1..], msg);
    }
  }

  /** While the destructor has started, no work is in the hands of a thread that posts. */
  lemma NothingHeldBack(p: Pool, msg: Msg)
    requires Inv(p) && p.closing && !msg.Terminate?
    ensures Held(p.q.threads, msg) == 0
  {
    forall i | 0 <= i < |p.q.threads| ensures !Holds(p.q.threads[i], msg) {
      assert RoleOk(p, i);
    }
    NobodyHolds(p.q.threads, msg);
  }

  /** Workers leave only after the destructor has started. */
  lemma ExitedMeansClosing(p: Pool)
    requires Inv(p) && AllExited(p) && p.workers != []
    ensures p.closing
  {
    ExitedHands(Cells(p));
  }

  /** Every message that clients posted has, when all workers have left, been processed, or turned away by a discarding
      post that found the queue full, or overrun, as often as it was posted. */
  lemma AllAccountedFor(maxItems: nat, threadsN: nat, clients: nat, steps: seq<PoolStep>, msg: Msg)
    requires Create(maxItems, threadsN, clients).Created? && !msg.Terminate?
    requires var p := Create(maxItems, threadsN, clients).pool; PoolRuns(p, steps) && AllExited(PoolAfter(p, steps))
    ensures var p := PoolAfter(Create(maxItems, threadsN, clients).pool, steps);
      Posted(steps, msg) == Copies(p.processed, msg) + Copies(p.q.rejected, msg) + Overrun(p.q.gone, msg)
  {
    var p0 := Create(maxItems, threadsN, clients).pool;
    var p := PoolAfter(p0, steps);
    CreateInv(maxItems, threadsN, clients);
    RunKeeps(p0, steps);
    QueueRuns(p0, steps);
    Drained(maxItems, threadsN, clients, steps);
    QueueAccounts(maxItems, threadsN + 1 + clients, QueueSteps(p0, steps), msg);
    PostedIsCalled(p0, steps, msg);
    ExitedMeansClosing(p);
    NothingHeldBack(p, msg);
    GoneCopies(p.q.gone, msg);
    CopiesAreCount(Dequeued(p.q.gone), msg);
    CopiesAreCount(p.processed, msg);
  }

  // ------------------------------------------------------------------ blocking clients lose nothing

  predicate AllBlock(steps: seq<Step<Msg>>) {
    forall i :: 0 <= i < |steps| && steps[i].CallEnqueue? ==> steps[i].policy.Block?
  }

  /** No thread is about to push in another way, and nothing was lost so far. */
  predicate OnlyBlocks(s: State<Msg>) {
    && s.rejected == [] && (forall i :: 0 <= i < |s.gone| ==> s.gone[i].1)
    && forall i :: 0 <= i < |s.threads| && s.threads[i].Enqueuing? ==> s.threads[i].policy.Block?
  }

  lemma LockBlocks(s: State<Msg>, step: Step<Msg>)
    requires OnlyBlocks(s) && Enabled(s, step) && step.Lock?
    ensures OnlyBlocks(Do(s, step))
  {
    var o := Section(s.items, s.cap, s.threads[step.t]);
    LockIs(s, step, o, if o.pushed then [s.threads[step.t].item] else [],
           if o.pc.Discarding? then [s.threads[step.t].item] else []);
    SectionMeans(s.items, s.cap, s.threads[step.t]);
  }

  lemma StepBlocks(s: State<Msg>, step: Step<Msg>)
    requires OnlyBlocks(s) && Enabled(s, step) && (step.CallEnqueue? ==> step.policy.Block?)
    ensures OnlyBlocks(Do(s, step))
  {
    if step.Lock? {
      LockBlocks(s, step);
    }
  }

  lemma {:induction false} RunBlocks(s: State<Msg>, steps: seq<Step<Msg>>)
    requires OnlyBlocks(s) && Runs(s, steps) && AllBlock(steps)
    ensures OnlyBlocks(After(s, steps))
    decreases |steps|
  {
    if steps != [] {
      assert steps[0].CallEnqueue? ==> steps[0].policy.Block?;
      StepBlocks(s, steps[0]);
      assert forall i :: 0 <= i < |steps[1..]| ==> steps[1..][i] == steps[i + 1];
      RunBlocks(Do(s, steps[0]), steps[1..]);
    }
  }

  predicate ClientsBlock(steps: seq<PoolStep>) {
    forall i :: 0 <= i < |steps| && steps[i].Queue? && steps[i].step.CallEnqueue? ==> steps[i].step.policy.Block?
  }

  lemma {:induction false} QueueBlocks(p: Pool, steps: seq<PoolStep>)
    requires Shaped(p) && ClientsBlock(steps)
    ensures AllBlock(QueueSteps(p, steps))
    decreases |steps|
  {
    if steps != [] {
      assert forall i :: 0 <= i < |steps[1..]| ==> steps[1..][i] == steps[i + 1];
      QueueBlocks(p, steps[1..]);
      assert steps[0].Queue? && steps[0].step.CallEnqueue? ==> steps[0].step.policy.Block?;
    }
  }

  lemma {:induction false} NothingOverrun(gone: seq<(Msg, bool)>, msg: Msg)
    requires forall i :: 0 <= i < |gone| ==> gone[i].1
    ensures Overrun(gone, msg) == 0
    decreases |gone|
  {
    if gone != [] {
      NothingOverrun(gone[..|gone| - 1], msg);
    }
  }

  /** Clients that block lose no message: when all workers have left, every message was processed as often as it was
      posted. */
  lemma BlockingLosesNothing(maxItems: nat, threadsN: nat, clients: nat, steps: seq<PoolStep>, msg: Msg)
    requires Create(maxItems, threadsN, clients).Created? && !msg.Terminate? && ClientsBlock(steps)
    requires var p := Create(maxItems, threadsN, clients).pool; PoolRuns(p, steps) && AllExited(PoolAfter(p, steps))
    ensures Copies(PoolAfter(Create(maxItems, threadsN, clients).pool, steps).processed, msg) == Posted(steps, msg)
  {
    var p0 := Create(maxItems, threadsN, clients).pool;
    AllAccountedFor(maxItems, threadsN, clients, steps, msg);
    QueueRuns(p0, steps);
    QueueBlocks(p0, steps);
    RunBlocks(p0.q, QueueSteps(p0, steps));
    NothingOverrun(PoolAfter(p0, steps).q.gone, msg);
  }
}
