/** thread_pool-inl.h: workers that drain the queue, and a destructor that stops them with one message each. A clause
    that says `P(..) == true` states P as one fact, which the verifier does not unfold there. */
module ThreadPool {
  import opened MpmcQueue
  import opened MpmcProtocol

  datatype Msg = Log(id: int) | Flush(id: int) | Terminate

  /** A worker loops (its place in the queue's calls is the queue's business), has a message in its hands, or has
      left the loop. */
  datatype Worker = Ready | Holding(msg: Msg) | Exited

  /** Threads 0..|workers| of the queue are the workers, the next one is the destructor, the rest are clients. The
      terminate messages that the destructor has not begun to post are counted from the start. */
  datatype Pool = Pool(q: State<Msg>, workers: seq<Worker>, toPost: nat, closing: bool, processed: seq<Msg>)

  /** The constructor, which refuses no threads and more than a thousand. */
  datatype Created = Refused | Created(pool: Pool)

  function Create(maxItems: nat, threadsN: nat, clients: nat): Created {
    if threadsN == 0 || threadsN > 1000 then Refused
    else Created(Pool(Init(maxItems, threadsN + 1 + clients), seq(threadsN, i => Ready), threadsN, false, []))
  }

  // ------------------------------------------------------------------ steps

  /** A step of the queue, the switch on the message type, the start of the destructor, and its next post. */
  datatype PoolStep = Queue(step: Step<Msg>) | Handle(w: nat) | Close | Post

  predicate Shaped(p: Pool) {
    |p.workers| < |p.q.threads|
  }

  /** What calls the threads make: workers dequeue while they loop, clients post work with any policy until the
      destructor starts, and the destructor posts through Post. */
  predicate Allowed(p: Pool, step: Step<Msg>) {
    match step
    case CallEnqueue(t, item, _) => t > |p.workers| && !p.closing && !item.Terminate?
    case CallDequeue(t, timed) => t < |p.workers| && p.workers[t].Ready? && !timed
    case _ => true
  }

  predicate Can(p: Pool, step: PoolStep)
    requires Shaped(p)
  {
    match step
    case Queue(qs) => Enabled(p.q, qs) && Allowed(p, qs)
    case Handle(w) => w < |p.workers| && p.workers[w].Holding?
    case Close => !p.closing && forall i :: |p.workers| <= i < |p.q.threads| ==> p.q.threads[i].Idle?
    case Post => p.closing && p.toPost > 0 && Enabled(p.q, CallEnqueue(|p.workers|, Terminate, Block))
  }

  function Does(p: Pool, step: PoolStep): (p': Pool)
    requires Shaped(p) && Can(p, step)
    ensures Shaped(p') && |p'.workers| == |p.workers|
  {
    match step
    case Queue(qs) => p.(q := Do(p.q, qs), workers := InHand(p, qs))
    case Handle(w) => Handled(p, w)
    case Close => p.(closing := true)
    case Post => p.(q := Do(p.q, CallEnqueue(|p.workers|, Terminate, Block)), toPost := p.toPost - 1)
  }

  /** dequeue returns when the notification is done: the worker then has its message. */
  function InHand(p: Pool, step: Step<Msg>): (workers: seq<Worker>)
    requires Enabled(p.q, step)
    ensures |workers| == |p.workers|
  {
    if (step.NotifyOne? || step.NotifyNobody?) && step.t < |p.workers| && p.q.threads[step.t].NotifyPop?
    then p.workers[step.t := Holding(p.q.threads[step.t].item)]
    else p.workers
  }

  /** process_next_msg_ after the dequeue: work is done and the loop goes on, terminate ends it. */
  function Handled(p: Pool, w: nat): Pool
    requires w < |p.workers| && p.workers[w].Holding?
  {
    var msg := p.workers[w].msg;
    if msg.Terminate? then p.(workers := p.workers[w := Exited])
    else p.(workers := p.workers[w := Ready], processed := p.processed + [msg])
  }

  // ------------------------------------------------------------------ the invariant

  type Cell = (Worker, Pc<Msg>)

  function Cells(p: Pool): (cells: seq<Cell>)
    requires Shaped(p)
    ensures |cells| == |p.workers|
  {
    seq(|p.workers|, i requires 0 <= i < |p.workers| => (p.workers[i], p.q.threads[i]))
  }

  /** The message a worker has taken out of the queue and not yet dealt with; a worker that has left keeps its
      terminate message. */
  function Hand(cell: Cell): multiset<Msg> {
    if cell.0.Exited? then multiset{Terminate}
    else if cell.0.Holding? then multiset{cell.0.msg}
    else if cell.1.NotifyPop? then multiset{cell.1.item}
    else multiset{}
  }

  function Hands(cells: seq<Cell>): multiset<Msg> {
    if cells == [] then multiset{} else Hand(cells[0]) + Hands(cells[1..])
  }

  /** A worker that has not taken a terminate message. */
  predicate Live(cell: Cell) {
    Terminate !in Hand(cell)
  }

  function LiveCount(cells: seq<Cell>): nat {
    if cells == [] then 0 else One(Live(cells[0])) + LiveCount(cells[1..])
  }

  function Terms(items: seq<Msg>): nat {
    if items == [] then 0 else One(items[0].Terminate?) + Terms(items[1..])
  }

  predicate Posting(pc: Pc<Msg>) {
    pc == Enqueuing(Terminate, Block) || pc == BlockedEnqueue(Terminate) || pc == AwakeEnqueue(Terminate)
  }

  function Unposted(p: Pool): nat
    requires Shaped(p)
  {
    p.toPost + One(Posting(p.q.threads[|p.workers|]))
  }

  predicate WorkerOk(cell: Cell) {
    cell.1.Idle? ||
    (cell.0.Ready? && (cell.1 == Dequeuing(false) || cell.1 == BlockedDequeue(false) || cell.1 == AwakeDequeue(false)
                       || cell.1.NotifyPop?))
  }

  predicate ClientOk(pc: Pc<Msg>, closing: bool) {
    pc.Idle? ||
    (!closing && (pc.NotifyPush? || pc.Discarding? ||
      ((pc.Enqueuing? || pc.BlockedEnqueue? || pc.AwakeEnqueue?) && !pc.item.Terminate?)))
  }

  predicate DestructorOk(pc: Pc<Msg>, closing: bool) {
    pc.Idle? || (closing && (Posting(pc) || pc.NotifyPush?))
  }

  /** Thread i is where its part in the pool lets it be. */
  predicate RoleOk(p: Pool, i: nat)
    requires Shaped(p) && i < |p.q.threads|
  {
    var pc := p.q.threads[i];
    if i < |p.workers| then WorkerOk((p.workers[i], pc))
    else if i == |p.workers| then DestructorOk(pc, p.closing)
    else ClientOk(pc, p.closing)
  }

  predicate RolesOk(p: Pool) {
    Shaped(p) && forall i :: 0 <= i < |p.q.threads| ==> RoleOk(p, i)
  }

  /** Behind a terminate message there are only terminate messages. */
  predicate TerminatesLast(items: seq<Msg>) {
    forall i, j :: 0 <= i < j < |items| && items[i].Terminate? ==> items[j].Terminate?
  }

  /** Live workers are terminate messages queued plus terminate messages not yet posted. */
  predicate Balanced(p: Pool)
    requires Shaped(p)
  {
    LiveCount(Cells(p)) == Terms(p.q.items) + Unposted(p) && (!p.closing ==> p.toPost == |p.workers|)
  }

  /** Terminate messages come last, and once one has been taken there is nothing else left to take. */
  predicate Ordered(p: Pool)
    requires Shaped(p)
  {
    TerminatesLast(p.q.items) && (LiveCount(Cells(p)) < |p.workers| ==> Terms(p.q.items) == |p.q.items|)
  }

  /** What was taken out of the queue has been processed or is in somebody's hands. */
  ghost predicate Accounted(p: Pool)
    requires Shaped(p)
  {
    multiset(Dequeued(p.q.gone)) == multiset(p.processed) + Hands(Cells(p)) && Terminate !in p.processed
  }

  ghost predicate PoolOk(p: Pool) {
    RolesOk(p) && Balanced(p) && Ordered(p) && Accounted(p)
  }

  ghost predicate Inv(p: Pool) {
    NoLostWakeup(p.q) && Conserves(p.q) && PoolOk(p)
  }

  // ------------------------------------------------------------------ sums over the workers

  lemma {:induction false} HandsUpdate(cells: seq<Cell>, i: nat, c: Cell)
    requires i < |cells|
    ensures Hands(cells[i := c]) + Hand(cells[i]) == Hands(cells) + Hand(c)
  {
    if i == 0 {
      assert cells[0 := c][1..] == cells[1..];
    } else {
      assert cells[i := c][1..] == cells[1..][i - 1 := c];
      HandsUpdate(cells[1..], i - 1, c);
      Regrouped(Hand(cells[0]), Hands(cells[1..][i - 1 := c]), Hand(cells[i]), Hands(cells[1..]), Hand(c));
    }
  }

  lemma Regrouped(a: multiset<Msg>, b: multiset<Msg>, c: multiset<Msg>, d: multiset<Msg>, e: multiset<Msg>)
    requires b + c == d + e
    ensures (a + b) + c == (a + d) + e
  {
    assert (a + b) + c == a + (b + c);
    assert (a + d) + e == a + (d + e);
  }

  lemma {:induction false} LiveUpdate(cells: seq<Cell>, i: nat, c: Cell)
    requires i < |cells|
    ensures LiveCount(cells[i := c]) + One(Live(cells[i])) == LiveCount(cells) + One(Live(c))
  {
    if i == 0 {
      assert cells[0 := c][1..] == cells[1..];
    } else {
      assert cells[i := c][1..] == cells[1..][i - 1 := c];
      LiveUpdate(cells[1..], i - 1, c);
    }
  }

  lemma {:induction false} SameHands(cells: seq<Cell>, cells': seq<Cell>)
    requires |cells| == |cells'| && forall i :: 0 <= i < |cells| ==> Hand(cells[i]) == Hand(cells'[i])
    ensures Hands(cells) == Hands(cells') && LiveCount(cells) == LiveCount(cells')
  {
    if cells != [] { SameHands(cells[1..], cells'[1..]); }
  }

  lemma {:induction false} LiveBound(cells: seq<Cell>)
    ensures LiveCount(cells) <= |cells|
    ensures LiveCount(cells) == 0 ==> forall i :: 0 <= i < |cells| ==> !Live(cells[i])
    ensures LiveCount(cells) == |cells| ==> forall i :: 0 <= i < |cells| ==> Live(cells[i])
  {
    if cells != [] { LiveBound(cells[1..]); }
  }

  lemma {:induction false} TermsAppend(items: seq<Msg>, m: Msg)
    ensures Terms(items + [m]) == Terms(items) + One(m.Terminate?)
  {
    if items == [] {
      assert [m][1..] == [];
    } else {
      assert (items + [m])[1..] == items[1..] + [m];
      TermsAppend(items[1..], m);
    }
  }

  lemma {:induction false} TermsBound(items: seq<Msg>)
    ensures Terms(items) <= |items|
    ensures Terms(items) == 0 <==> forall i :: 0 <= i < |items| ==> !items[i].Terminate?
    ensures Terms(items) == |items| <==> forall i :: 0 <= i < |items| ==> items[i].Terminate?
  {
    if items != [] { TermsBound(items[1..]); }
  }

  // ------------------------------------------------------------------ steps that leave hands and queue alone

  /** What a quiet step does to one thread. */
  predicate QuietAt(p: Pool, p': Pool, i: nat)
    requires Shaped(p) && Shaped(p') && |p'.workers| == |p.workers| && i < |p.q.threads| == |p'.q.threads|
  {
    && RoleOk(p', i)
    && (i < |p.workers| ==> Hand((p.workers[i], p.q.threads[i])) == Hand((p'.workers[i], p'.q.threads[i])))
    && (i == |p.workers| && p.toPost == p'.toPost ==> Posting(p.q.threads[i]) == Posting(p'.q.threads[i]))
  }

  /** Most steps change neither the messages in hand nor the messages queued. */
  predicate Quiet(p: Pool, p': Pool) {
    && Shaped(p) && Shaped(p') && |p'.workers| == |p.workers| && |p.q.threads| == |p'.q.threads|
    && (forall i :: 0 <= i < |p.q.threads| ==> QuietAt(p, p', i))
    && p'.q.items == p.q.items && p'.q.gone == p.q.gone && p'.processed == p.processed
    && p'.toPost == p.toPost && (p.closing ==> p'.closing)
  }

  lemma QuietKeeps(p: Pool, p': Pool)
    requires Quiet(p, p') && PoolOk(p)
    ensures PoolOk(p')
  {
    forall i | 0 <= i < |p'.q.threads| ensures RoleOk(p', i) {
      assert QuietAt(p, p', i);
    }
    var cells, cells' := Cells(p), Cells(p');
    forall i | 0 <= i < |cells| ensures Hand(cells[i]) == Hand(cells'[i]) {
      assert QuietAt(p, p', i);
    }
    SameHands(cells, cells');
    assert QuietAt(p, p', |p.workers|);
  }

  lemma NotifyOneAt(p: Pool, t: nat, other: nat, i: nat)
    requires RolesOk(p) && Can(p, Queue(NotifyOne(t, other))) && i < |p.q.threads|
    ensures QuietAt(p, Does(p, Queue(NotifyOne(t, other))), i)
  {
    assert RoleOk(p, i) && RoleOk(p, t) && RoleOk(p, other);
  }

  lemma NotifyOneIsQuiet(p: Pool, t: nat, other: nat)
    requires RolesOk(p) && Can(p, Queue(NotifyOne(t, other)))
    ensures Quiet(p, Does(p, Queue(NotifyOne(t, other))))
  {
    var p' := Does(p, Queue(NotifyOne(t, other)));
    forall i | 0 <= i < |p.q.threads| ensures QuietAt(p, p', i) {
      NotifyOneAt(p, t, other, i);
    }
  }

  lemma OtherAt(p: Pool, step: Step<Msg>, i: nat)
    requires RolesOk(p) && Can(p, Queue(step)) && !step.Lock? && !step.NotifyOne? && i < |p.q.threads|
    ensures QuietAt(p, Does(p, Queue(step)), i)
  {
    assert RoleOk(p, i) && RoleOk(p, step.t);
  }

  lemma OtherIsQuiet(p: Pool, step: Step<Msg>)
    requires RolesOk(p) && Can(p, Queue(step)) && !step.Lock? && !step.NotifyOne?
    ensures Quiet(p, Does(p, Queue(step)))
  {
    var p' := Does(p, Queue(step));
    forall i | 0 <= i < |p.q.threads| ensures QuietAt(p, p', i) {
      OtherAt(p, step, i);
    }
  }

  lemma CloseIsQuiet(p: Pool)
    requires RolesOk(p) && Can(p, Close)
    ensures Quiet(p, Does(p, Close))
  {
    forall i | 0 <= i < |p.q.threads| ensures QuietAt(p, Does(p, Close), i) {
      assert RoleOk(p, i);
    }
  }

  /** A section that leaves the queue as it is: the thread waits, is turned away, or has timed out. */
  lemma IdleLockIsQuiet(p: Pool, t: nat)
    requires RolesOk(p) && Can(p, Queue(Lock(t)))
    requires var o := Section(p.q.items, p.q.cap, p.q.threads[t]);
      !o.pushed && o.gone == []
    ensures Quiet(p, Does(p, Queue(Lock(t))))
  {
    var p' := Does(p, Queue(Lock(t)));
    forall i | 0 <= i < |p.q.threads| ensures QuietAt(p, p', i) {
      assert RoleOk(p, i) && RoleOk(p, t);
    }
    assert p'.q.gone == p.q.gone;
  }

  // ------------------------------------------------------------------ steps that move messages

  /** A worker takes the oldest message. */
  ghost predicate Popped(p: Pool, p': Pool, t: nat) {
    && Shaped(p) && Shaped(p') && t < |p.workers| == |p'.workers| && |p.q.threads| == |p'.q.threads|
    && p.q.items != [] && p'.q.items == p.q.items[1..]
    && p'.q.gone == p.q.gone + [(p.q.items[0], true)]
    && p'.q.threads == p.q.threads[t := NotifyPop(p.q.items[0])]
    && p'.workers == p.workers && p'.processed == p.processed && p'.toPost == p.toPost && p'.closing == p.closing
    && p.workers[t].Ready? && (p.q.threads[t] == Dequeuing(false) || p.q.threads[t] == AwakeDequeue(false))
  }

  lemma PopKeepsRoles(p: Pool, p': Pool, t: nat)
    requires RolesOk(p) && Popped(p, p', t)
    ensures RolesOk(p')
  {
    forall i | 0 <= i < |p'.q.threads| ensures RoleOk(p', i) {
      assert RoleOk(p, i);
    }
  }

  lemma PopKeeps(p: Pool, p': Pool, t: nat)
    requires PoolOk(p) && Popped(p, p', t)
    ensures PoolOk(p')
  {
    PopKeepsRoles(p, p', t);
    PopKeepsBalance(p, p', t);
    PopAccounts(p, p', t);
  }

  lemma PopKeepsBalance(p: Pool, p': Pool, t: nat)
    requires Shaped(p) && Balanced(p) && Ordered(p) && Popped(p, p', t)
    ensures Balanced(p') && Ordered(p')
  {
    var cells, c := Cells(p), (p.workers[t], p'.q.threads[t]);
    assert Cells(p') == cells[t := c];
    PopKeepsOrder(cells, t, c, p.q.items);
  }

  lemma PopAccounts(p: Pool, p': Pool, t: nat)
    requires Shaped(p) && Accounted(p) && Popped(p, p', t)
    ensures Accounted(p')
  {
    var cells, c, m := Cells(p), (p.workers[t], p'.q.threads[t]), p.q.items[0];
    assert Cells(p') == cells[t := c];
    HandsUpdate(cells, t, c);
    Appended(p.q.gone, [(m, true)]);
    assert Hand(cells[t]) == multiset{} && Hand(c) == multiset{m};
    TakesOne(multiset(Dequeued(p.q.gone)), multiset(p.processed), Hands(cells), Hands(cells[t := c]), m);
  }

  lemma TakesOne(taken: multiset<Msg>, done: multiset<Msg>, hands: multiset<Msg>, hands': multiset<Msg>, m: Msg)
    requires taken == done + hands && hands' + multiset{} == hands + multiset{m}
    ensures taken + multiset{m} == done + hands'
  {
    assert hands' == hands + multiset{m};
  }

  lemma PutsOneDown(taken: multiset<Msg>, done: multiset<Msg>, hands: multiset<Msg>, hands': multiset<Msg>, m: Msg)
    requires taken == done + hands && hands' + multiset{m} == hands + multiset{}
    ensures taken == (done + multiset{m}) + hands'
  {
    assert hands == hands' + multiset{m};
  }

  lemma PopKeepsOrder(cells: seq<Cell>, t: nat, c: Cell, items: seq<Msg>)
    requires t < |cells| && items != [] && TerminatesLast(items)
    requires Hand(cells[t]) == multiset{} && Hand(c) == multiset{items[0]}
    ensures LiveCount(cells[t := c]) + One(items[0].Terminate?) == LiveCount(cells)
    ensures Terms(items[1..]) + One(items[0].Terminate?) == Terms(items)
    ensures TerminatesLast(items[1..])
    ensures items[0].Terminate? || Terms(items) == |items| ==> Terms(items[1..]) == |items[1..]|
  {
    LiveUpdate(cells, t, c);
    TermsBound(items);
    TermsBound(items[1..]);
  }

  /** The destructor's message goes in: it only does when there is room. */
  lemma TerminateKeeps(p: Pool)
    requires Inv(p) && Can(p, Queue(Lock(|p.workers|))) && |p.q.items| < p.q.cap
    ensures var p' := Does(p, Queue(Lock(|p.workers|)));
      PoolOk(p')
  {
    var t, p' := |p.workers|, Does(p, Queue(Lock(|p.workers|)));
    assert RoleOk(p, t);
    forall i | 0 <= i < |p'.q.threads| ensures RoleOk(p', i) {
      assert RoleOk(p, i);
    }
    assert Cells(p') == Cells(p);
    assert p'.q.items == p.q.items + [Terminate] && p'.q.gone == p.q.gone;
    TermsAppend(p.q.items, Terminate);
  }

  /** A client's message goes in, perhaps in place of the oldest one; this is before the destructor starts, when
      there is no terminate message anywhere. */
  lemma ClientPushKeeps(p: Pool, t: nat)
    requires PoolOk(p) && |p.q.items| <= p.q.cap && Can(p, Queue(Lock(t))) && t > |p.workers|
    requires Section(p.q.items, p.q.cap, p.q.threads[t]).pushed
    ensures PoolOk(Does(p, Queue(Lock(t)))) == true
  {
    var p' := Does(p, Queue(Lock(t)));
    assert RoleOk(p, t) && RoleOk(p, |p.workers|);
    ClientPushRoles(p, p', t);
    ClientPushKeepsRest(p, p', p.q.threads[t].item);
  }

  lemma ClientPushRoles(p: Pool, p': Pool, t: nat)
    requires RolesOk(p) && Can(p, Queue(Lock(t))) && t > |p.workers| && p' == Does(p, Queue(Lock(t)))
    requires Section(p.q.items, p.q.cap, p.q.threads[t]).pushed
    ensures RolesOk(p') && Cells(p') == Cells(p)
  {
    assert RoleOk(p, t) && RoleOk(p, |p.workers|);
    forall i | 0 <= i < |p'.q.threads| ensures RoleOk(p', i) {
      assert RoleOk(p, i);
    }
    assert Cells(p') == Cells(p);
  }

  lemma ClientPushKeepsRest(p: Pool, p': Pool, item: Msg)
    requires PoolOk(p) && Shaped(p') && !p.closing && !item.Terminate? && |p.q.items| <= p.q.cap
    requires Cells(p') == Cells(p) && p'.processed == p.processed && p'.workers == p.workers
    requires p'.toPost == p.toPost && p'.closing == p.closing
    requires p'.q.threads[|p.workers|] == p.q.threads[|p.workers|]
    requires var o := Push(p.q.items, p.q.cap, item);
      p'.q.items == o.items && p'.q.gone == p.q.gone + o.gone
    ensures Balanced(p') && Ordered(p') && Accounted(p')
  {
    LiveBound(Cells(p));
    NoTermsPushed(p.q.items, p.q.cap, item);
    Appended(p.q.gone, Push(p.q.items, p.q.cap, item).gone);
  }

  lemma NoTermsPushed(items: seq<Msg>, cap: nat, item: Msg)
    requires |items| <= cap && Terms(items) == 0 && !item.Terminate?
    ensures Terms(Push(items, cap, item).items) == 0 && TerminatesLast(Push(items, cap, item).items)
  {
    TermsBound(items);
    TermsBound(Push(items, cap, item).items);
  }

  /** What a section does for each part in the pool. */
  lemma LockCases(p: Pool, t: nat)
    requires RolesOk(p) && Can(p, Queue(Lock(t)))
    ensures var o := Section(p.q.items, p.q.cap, p.q.threads[t]);
      && (t < |p.workers| && (o.pushed || o.gone != []) ==> Popped(p, Does(p, Queue(Lock(t))), t))
      && (t == |p.workers| && (o.pushed || o.gone != []) ==> |p.q.items| < p.q.cap)
      && (t > |p.workers| && (o.pushed || o.gone != []) ==> o.pushed)
  {
    assert RoleOk(p, t);
  }

  lemma LockKeeps(p: Pool, t: nat)
    requires Inv(p) && Can(p, Queue(Lock(t)))
    ensures PoolOk(Does(p, Queue(Lock(t)))) == true
  {
    var o := Section(p.q.items, p.q.cap, p.q.threads[t]);
    LockCases(p, t);
    if !o.pushed && o.gone == [] {
      IdleLockIsQuiet(p, t);
      QuietKeeps(p, Does(p, Queue(Lock(t))));
    } else if t < |p.workers| {
      PopKeeps(p, Does(p, Queue(Lock(t))), t);
    } else if t == |p.workers| {
      TerminateKeeps(p);
    } else {
      ClientPushKeeps(p, t);
    }
  }

  lemma PostKeeps(p: Pool)
    requires Inv(p) && Can(p, Post)
    ensures var p' := Does(p, Post);
      PoolOk(p')
  {
    var p' := Does(p, Post);
    forall i | 0 <= i < |p'.q.threads| ensures RoleOk(p', i) {
      assert RoleOk(p, i);
    }
    assert Cells(p') == Cells(p);
  }

  /** A message is dealt with. */
  lemma HandleKeeps(p: Pool, w: nat)
    requires PoolOk(p) && Can(p, Handle(w))
    ensures PoolOk(Does(p, Handle(w))) == true
  {
    var p' := Does(p, Handle(w));
    HandleRoles(p, p', w);
    HandleKeepsBalance(p, p', w);
    HandleAccounts(p, p', w);
  }

  lemma HandleRoles(p: Pool, p': Pool, w: nat)
    requires RolesOk(p) && Can(p, Handle(w)) && p' == Does(p, Handle(w))
    ensures RolesOk(p')
  {
    assert RoleOk(p, w);
    forall i | 0 <= i < |p'.q.threads| ensures RoleOk(p', i) {
      assert RoleOk(p, i);
    }
  }

  lemma HandleKeepsBalance(p: Pool, p': Pool, w: nat)
    requires RolesOk(p) && Balanced(p) && Ordered(p) && w < |p.workers| && p.workers[w].Holding? && p' == Handled(p, w)
    ensures Balanced(p') && Ordered(p')
  {
    var cells, c := Cells(p), (p'.workers[w], p.q.threads[w]);
    assert RoleOk(p, w);
    assert Cells(p') == cells[w := c];
    LiveUpdate(cells, w, c);
    assert Live(cells[w]) == Live(c);
  }

  lemma HandleMovesCell(p: Pool, p': Pool, w: nat)
    requires RolesOk(p) && w < |p.workers| && p.workers[w].Holding? && p' == Handled(p, w)
    ensures w < |Cells(p)| && Hand(Cells(p)[w]) == multiset{p.workers[w].msg}
    ensures Cells(p') == Cells(p)[w := (p'.workers[w], p.q.threads[w])]
    ensures Hand((p'.workers[w], p.q.threads[w])) == if p.workers[w].msg.Terminate? then multiset{p.workers[w].msg}
      else multiset{}
  {
    assert RoleOk(p, w);
    assert Cells(p') == Cells(p)[w := (p'.workers[w], p.q.threads[w])];
  }

  lemma HandleAccounts(p: Pool, p': Pool, w: nat)
    requires RolesOk(p) && Accounted(p) && w < |p.workers| && p.workers[w].Holding? && p' == Handled(p, w)
    ensures Accounted(p')
  {
    var cells, c, m := Cells(p), (p'.workers[w], p.q.threads[w]), p.workers[w].msg;
    HandleMovesCell(p, p', w);
    HandsUpdate(cells, w, c);
    if !m.Terminate? {
      PutsOneDown(multiset(Dequeued(p.q.gone)), multiset(p.processed), Hands(cells), Hands(cells[w := c]), m);
      OneMoreProcessed(p.processed, m);
    } else {
      Cancels(Hands(cells), Hands(cells[w := c]), m);
    }
  }

  lemma OneMoreProcessed(processed: seq<Msg>, m: Msg)
    requires Terminate !in processed && !m.Terminate?
    ensures multiset(processed + [m]) == multiset(processed) + multiset{m} && Terminate !in processed + [m]
  {
  }

  lemma Cancels(hands: multiset<Msg>, hands': multiset<Msg>, m: Msg)
    requires hands' + multiset{m} == hands + multiset{m}
    ensures hands' == hands
  {
    assert hands' == (hands' + multiset{m}) - multiset{m};
    assert hands == (hands + multiset{m}) - multiset{m};
  }

  /** Every step of the pool keeps the invariant. */
  lemma StepKeeps(p: Pool, step: PoolStep)
    requires Inv(p) && Can(p, step)
    ensures Inv(Does(p, step))
  {
    match step
    case Queue(qs) =>
      StepKeepsWakeup(p.q, qs);
      StepConserves(p.q, qs);
      match qs {
        case Lock(t) => LockKeeps(p, t);
        case NotifyOne(t, other) =>
          NotifyOneIsQuiet(p, t, other);
          QuietKeeps(p, Does(p, step));
        case _ =>
          OtherIsQuiet(p, qs);
          QuietKeeps(p, Does(p, step));
      }
    case Handle(w) => HandleKeeps(p, w);
    case Close =>
      CloseIsQuiet(p);
      QuietKeeps(p, Does(p, Close));
    case Post =>
      StepKeepsWakeup(p.q, CallEnqueue(|p.workers|, Terminate, Block));
      StepConserves(p.q, CallEnqueue(|p.workers|, Terminate, Block));
      PostKeeps(p);
  }
}
