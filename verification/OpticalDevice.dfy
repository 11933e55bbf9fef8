/** The transmit side of optical-device.cc. The queue is a bounded first-in first-out queue; the simulator is a clock
    and the completion events it still owes the device. */
module OpticalDevices {
  import opened Options

  datatype TxMachineState = READY | BUSY

  /** A packet with its frame around it, and the transmission time of that many bytes at the data rate. */
  datatype Packet = Packet(uid: int, txTime: nat)

  datatype Stamped = Stamped(packet: Packet, time: int)

  /** Packets taken into the queue and transmissions begun, each with its time, and transmissions ended. */
  datatype Past = Past(accepted: seq<Stamped>, started: seq<Stamped>, ended: seq<Packet>)

  datatype Device = Device(
    machine: TxMachineState, current: Option<Packet>, queue: seq<Packet>, attached: bool, linkUp: bool,
    pending: seq<int>, now: nat, past: Past)

  datatype Op = SendOp(packet: Packet) | CompleteOp | AttachOp(channel: bool) | DetachOp | Wait(until: nat)

  function Fresh(): Device {
    Device(READY, None, [], false, false, [], 0, Past([], [], []))
  }

  function Current(d: Device): seq<Packet> {
    if d.current.Some? then [d.current.value] else []
  }

  function TransmitStart(d: Device, p: Packet): Device {
    d.(machine := BUSY, current := Some(p), pending := d.pending + [d.now + p.txTime],
       past := d.past.(started := d.past.started + [Stamped(p, d.now)]))
  }

  function StartNext(d: Device): Device {
    if d.queue == [] then d else TransmitStart(d.(queue := d.queue[1..]), d.queue[0])
  }

  predicate Accepts(capacity: nat, d: Device) {
    d.linkUp && d.attached && |d.queue| < capacity
  }

  function SendFrom(capacity: nat, d: Device, p: Packet): Device {
    if !Accepts(capacity, d) then d
    else
      var e := d.(queue := d.queue + [p], past := d.past.(accepted := d.past.accepted + [Stamped(p, d.now)]));
      if d.machine == READY then StartNext(e) else e
  }

  function TransmitComplete(d: Device): Device
    requires d.pending != []
  {
    StartNext(d.(machine := READY, current := None, pending := d.pending[1..],
                    past := d.past.(ended := d.past.ended + Current(d))))
  }

  /** What the simulator may do: run an event at its time, and not let the clock pass one. */
  predicate Enabled(d: Device, op: Op) {
    match op
    case CompleteOp => d.pending != [] && d.pending[0] == d.now
    case Wait(until) => d.now <= until && forall k :: 0 <= k < |d.pending| ==> until <= d.pending[k]
    case _ => true
  }

  /** The assertions of TransmitComplete; the one of TransmitStart holds because every caller has just seen READY. */
  predicate AssertsHold(d: Device, op: Op) {
    op.CompleteOp? ==> d.machine == BUSY && d.current.Some?
  }

  function Step(capacity: nat, d: Device, op: Op): Device
    requires Enabled(d, op)
  {
    match op
    case SendOp(p) => SendFrom(capacity, d, p)
    case CompleteOp => TransmitComplete(d)
    case AttachOp(channel) => d.(attached := channel, linkUp := true)
    case DetachOp => d.(attached := false, linkUp := false)
    case Wait(until) => d.(now := until)
  }

  // ------------------------------------------------------------------ what every step keeps

  function Packets(s: seq<Stamped>): (r: seq<Packet>)
    ensures |r| == |s| && forall k :: 0 <= k < |s| ==> r[k] == s[k].packet
  {
    if s == [] then [] else Packets(s[..|s| - 1]) + [s[|s| - 1].packet]
  }

  /** BUSY exactly while there is a current packet and exactly one completion event; READY only with an empty queue. */
  ghost predicate OneAtATime(capacity: nat, d: Device) {
    && (d.machine == BUSY <==> d.current.Some?)
    && (d.machine == BUSY <==> |d.pending| == 1)
    && (d.machine == READY <==> d.pending == [])
    && (d.machine == READY ==> d.queue == [])
    && |d.queue| <= capacity
  }

  /** Accepted packets are started exactly once and in order: started, then queued; and ended exactly once and in
      order. */
  ghost predicate InOrder(d: Device) {
    && Packets(d.past.accepted) == Packets(d.past.started) + d.queue
    && Packets(d.past.started) == d.past.ended + Current(d)
  }

  /** The reference: a single server takes packet i when it has arrived and packet i - 1 is through. */
  function ServedAt(arrivals: seq<Stamped>, i: nat): int
    requires i < |arrivals|
  {
    if i == 0 then arrivals[0].time
    else
      var free := ServedAt(arrivals, i - 1) + arrivals[i - 1].packet.txTime;
      if arrivals[i].time >= free then arrivals[i].time else free
  }

  /** The time at which everything started so far is through. */
  function FreeAt(started: seq<Stamped>): int {
    if started == [] then 0 else started[|started| - 1].time + started[|started| - 1].packet.txTime
  }

  ghost predicate AsServed(accepted: seq<Stamped>, started: seq<Stamped>) {
    && |started| <= |accepted|
    && forall i :: 0 <= i < |started| ==> started[i] == Stamped(accepted[i].packet, ServedAt(accepted, i))
  }

  ghost predicate Arrived(accepted: seq<Stamped>, now: int) {
    forall i :: 0 <= i < |accepted| ==> 0 <= accepted[i].time <= now
  }

  ghost predicate OnTime(d: Device) {
    && AsServed(d.past.accepted, d.past.started)
    && Arrived(d.past.accepted, d.now)
    && (if d.machine == BUSY then d.now <= FreeAt(d.past.started) && d.pending == [FreeAt(d.past.started)]
        else FreeAt(d.past.started) <= d.now)
  }

  ghost predicate Inv(capacity: nat, d: Device) {
    OneAtATime(capacity, d) && InOrder(d) && OnTime(d)
  }

  lemma FreshInv(capacity: nat)
    ensures Inv(capacity, Fresh())
  {
  }

  lemma {:induction false} ServedPrefix(a: seq<Stamped>, b: seq<Stamped>, i: nat)
    requires i < |a|
    ensures ServedAt(a + b, i) == ServedAt(a, i)
  {
    if i > 0 {
      ServedPrefix(a, b, i - 1);
    }
  }

  /** The last packet started is the one before the next one to serve. */
  lemma ServedNext(d: Device)
    requires OnTime(d) && |d.past.started| < |d.past.accepted|
    ensures var k := |d.past.started|; var arrival := d.past.accepted[k].time; var free := FreeAt(d.past.started);
            ServedAt(d.past.accepted, k) == if arrival >= free then arrival else free
  {
    var k := |d.past.started|;
    if k > 0 {
      assert d.past.started[k - 1] == Stamped(d.past.accepted[k - 1].packet, ServedAt(d.past.accepted, k - 1));
    }
  }

  lemma StartedInOrder(d: Device)
    requires d.current.None? && InOrder(d) && d.queue != []
    ensures InOrder(StartNext(d))
  {
    var e := StartNext(d);
    assert e.past.started[..|e.past.started| - 1] == d.past.started;
    assert Packets(e.past.started) == Packets(d.past.started) + [d.queue[0]];
    assert d.queue == [d.queue[0]] + d.queue[1..];
  }

  lemma QueuedIs(d: Device)
    requires InOrder(d)
    ensures |d.past.accepted| == |d.past.started| + |d.queue|
    ensures d.queue != [] ==> d.past.accepted[|d.past.started|].packet == d.queue[0]
  {
    if d.queue != [] {
      assert Packets(d.past.accepted)[|d.past.started|] == d.queue[0];
    }
  }

  lemma AsServedLonger(accepted: seq<Stamped>, started: seq<Stamped>, next: Stamped)
    requires AsServed(accepted, started) && |started| < |accepted|
    requires next == Stamped(accepted[|started|].packet, ServedAt(accepted, |started|))
    ensures AsServed(accepted, started + [next])
  {
  }

  lemma FreeAfter(started: seq<Stamped>, next: Stamped)
    ensures FreeAt(started + [next]) == next.time + next.packet.txTime
  {
  }

  /** Starting the next packet at the time at which the server of the reference is free for it. */
  lemma StartedOnTime(d: Device)
    requires InOrder(d) && d.machine == READY && d.pending == [] && d.queue != [] && OnTime(d)
    requires ServedAt(d.past.accepted, |d.past.started|) == d.now
    ensures OnTime(StartNext(d))
  {
    QueuedIs(d);
    var next := Stamped(d.queue[0], d.now);
    AsServedLonger(d.past.accepted, d.past.started, next);
    FreeAfter(d.past.started, next);
    var e := StartNext(d);
    assert e.past.accepted == d.past.accepted && e.past.started == d.past.started + [next] && e.now == d.now;
    assert e.machine == BUSY && e.pending == [next.time + next.packet.txTime];
  }

  lemma SendInOrder(capacity: nat, d: Device, p: Packet)
    requires Inv(capacity, d)
    ensures InOrder(SendFrom(capacity, d, p))
  {
    if Accepts(capacity, d) {
      var e := d.(queue := d.queue + [p], past := d.past.(accepted := d.past.accepted + [Stamped(p, d.now)]));
      assert e.past.accepted[..|e.past.accepted| - 1] == d.past.accepted;
      assert InOrder(e);
      if d.machine == READY {
        StartedInOrder(e);
      }
    }
  }

  lemma AcceptedOnTime(d: Device, p: Packet)
    requires OnTime(d)
    ensures OnTime(d.(queue := d.queue + [p], past := d.past.(accepted := d.past.accepted + [Stamped(p, d.now)])))
  {
    var a := d.past.accepted + [Stamped(p, d.now)];
    forall i | 0 <= i < |d.past.started| ensures d.past.started[i] == Stamped(a[i].packet, ServedAt(a, i)) {
      ServedPrefix(d.past.accepted, [Stamped(p, d.now)], i);
    }
  }

  lemma SendOnTime(capacity: nat, d: Device, p: Packet)
    requires Inv(capacity, d)
    ensures OnTime(SendFrom(capacity, d, p))
  {
    if Accepts(capacity, d) {
      var e := d.(queue := d.queue + [p], past := d.past.(accepted := d.past.accepted + [Stamped(p, d.now)]));
      AcceptedOnTime(d, p);
      assert OnTime(e);
      if d.machine == READY {
        QueuedIs(d);
        ServedNext(e);
        assert e.past.accepted[..|e.past.accepted| - 1] == d.past.accepted;
        assert InOrder(e);
        StartedOnTime(e);
      }
    }
  }

  lemma CompleteInOrder(capacity: nat, d: Device)
    requires Inv(capacity, d) && Enabled(d, CompleteOp)
    ensures InOrder(TransmitComplete(d))
  {
    var e := d.(machine := READY, current := None, pending := d.pending[1..],
                past := d.past.(ended := d.past.ended + Current(d)));
    assert InOrder(e);
    if e.queue != [] {
      StartedInOrder(e);
    }
  }

  lemma CompleteOnTime(capacity: nat, d: Device)
    requires Inv(capacity, d) && Enabled(d, CompleteOp)
    ensures OnTime(TransmitComplete(d))
  {
    var e := d.(machine := READY, current := None, pending := d.pending[1..],
                past := d.past.(ended := d.past.ended + Current(d)));
    assert OnTime(e);
    if e.queue != [] {
      QueuedIs(d);
      ServedNext(e);
      StartedOnTime(e);
    }
  }

  lemma OneAfterStep(capacity: nat, d: Device, op: Op)
    requires OneAtATime(capacity, d) && Enabled(d, op)
    ensures OneAtATime(capacity, Step(capacity, d, op))
  {
  }

  lemma WaitOnTime(capacity: nat, d: Device, until: nat)
    requires OnTime(d) && OneAtATime(capacity, d) && Enabled(d, Wait(until))
    ensures OnTime(Step(capacity, d, Wait(until)))
  {
    if d.machine == BUSY {
      assert until <= d.pending[0];
    }
  }

  lemma QuietKeeps(capacity: nat, d: Device, op: Op)
    requires Enabled(d, op) && !op.SendOp? && !op.CompleteOp?
    ensures Step(capacity, d, op).past == d.past
    ensures InOrder(d) ==> InOrder(Step(capacity, d, op))
    ensures !op.Wait? && OnTime(d) ==> OnTime(Step(capacity, d, op))
  {
  }

  lemma StepKeeps(capacity: nat, d: Device, op: Op)
    requires Inv(capacity, d) && Enabled(d, op)
    ensures AssertsHold(d, op)
    ensures Inv(capacity, Step(capacity, d, op))
  {
    OneAfterStep(capacity, d, op);
    if op.SendOp? {
      SendInOrder(capacity, d, op.packet);
      SendOnTime(capacity, d, op.packet);
    } else if op.CompleteOp? {
      CompleteInOrder(capacity, d);
      CompleteOnTime(capacity, d);
    } else {
      QuietKeeps(capacity, d, op);
      if op.Wait? {
        WaitOnTime(capacity, d, op.until);
      }
    }
  }

  // ------------------------------------------------------------------ runs

  predicate Runs(capacity: nat, d: Device, ops: seq<Op>)
    decreases |ops|
  {
    ops == [] || (Enabled(d, ops[0]) && Runs(capacity, Step(capacity, d, ops[0]), ops[1..]))
  }

  function After(capacity: nat, d: Device, ops: seq<Op>): Device
    requires Runs(capacity, d, ops)
    decreases |ops|
  {
    if ops == [] then d else After(capacity, Step(capacity, d, ops[0]), ops[1..])
  }

  /** Over any run of sends, completions, attaches, detaches and waits, no assertion fails, the machine is BUSY exactly
      while one packet is on its way and one event is due, packets start once and in the order they were accepted, and
      each starts when the single server of the reference takes it. */
  lemma {:induction false} RunKeeps(capacity: nat, d: Device, ops: seq<Op>)
    requires Inv(capacity, d) && Runs(capacity, d, ops)
    ensures Inv(capacity, After(capacity, d, ops))
    ensures forall op :: Enabled(After(capacity, d, ops), op) ==> AssertsHold(After(capacity, d, ops), op)
    decreases |ops|
  {
    if ops != [] {
      StepKeeps(capacity, d, ops[0]);
      RunKeeps(capacity, Step(capacity, d, ops[0]), ops[1..]);
    }
  }

  // ------------------------------------------------------------------ which packets are accepted

  /** The last attach or detach attached a channel. */
  ghost predicate Linked(ops: seq<Op>) {
    exists i :: 0 <= i < |ops| && ops[i] == AttachOp(true) && NoLinkAfter(ops, i)
  }

  ghost predicate NoLinkAfter(ops: seq<Op>, i: int) {
    forall j :: 0 <= j < |ops| && i < j ==> !ops[j].AttachOp? && !ops[j].DetachOp?
  }

  lemma StaysLinked(ops: seq<Op>, op: Op)
    requires op == AttachOp(true) || (!op.AttachOp? && !op.DetachOp? && Linked(ops))
    ensures Linked(ops + [op])
  {
    var more := ops + [op];
    if op == AttachOp(true) {
      assert more[|ops|] == op && NoLinkAfter(more, |ops|);
    } else {
      var i :| 0 <= i < |ops| && ops[i] == AttachOp(true) && NoLinkAfter(ops, i);
      assert more[i] == ops[i] && NoLinkAfter(more, i);
    }
  }

  lemma WasLinked(ops: seq<Op>, op: Op)
    requires Linked(ops + [op]) && op != AttachOp(true)
    ensures !op.AttachOp? && !op.DetachOp? && Linked(ops)
  {
    var more := ops + [op];
    var i :| 0 <= i < |more| && more[i] == AttachOp(true) && NoLinkAfter(more, i);
    assert more[|ops|] == op && more[..|ops|] == ops;
    assert ops[i] == AttachOp(true);
    forall j | 0 <= j < |ops| && i < j ensures !ops[j].AttachOp? && !ops[j].DetachOp? {
      assert more[j] == ops[j];
    }
    assert NoLinkAfter(ops, i);
  }

  lemma {:induction false} RunsMore(capacity: nat, d: Device, ops: seq<Op>, op: Op)
    requires Runs(capacity, d, ops + [op])
    ensures Runs(capacity, d, ops) && Enabled(After(capacity, d, ops), op)
    ensures After(capacity, d, ops + [op]) == Step(capacity, After(capacity, d, ops), op)
    decreases |ops|
  {
    if ops == [] {
      assert ([] + [op])[1..] == [];
    } else {
      assert (ops + [op])[1..] == ops[1..] + [op];
      RunsMore(capacity, Step(capacity, d, ops[0]), ops[1..], op);
    }
  }

  lemma StepLinks(capacity: nat, d: Device, op: Op)
    requires Enabled(d, op)
    ensures var e := Step(capacity, d, op);
      (e.linkUp && e.attached) == (op == AttachOp(true) || (!op.AttachOp? && !op.DetachOp? && d.linkUp && d.attached))
  {
  }

  lemma {:induction false} RunLinks(capacity: nat, ops: seq<Op>)
    requires Runs(capacity, Fresh(), ops)
    ensures var d := After(capacity, Fresh(), ops); d.linkUp && d.attached <==> Linked(ops)
    decreases |ops|
  {
    if ops != [] {
      var init, op := ops[..|ops| - 1], ops[|ops| - 1];
      assert ops == init + [op];
      RunsMore(capacity, Fresh(), init, op);
      RunLinks(capacity, init);
      StepLinks(capacity, After(capacity, Fresh(), init), op);
      if op == AttachOp(true) || (!op.AttachOp? && !op.DetachOp? && Linked(init)) {
        StaysLinked(init, op);
      } else if Linked(ops) {
        WasLinked(init, op);
        assert false;
      }
    }
  }

  /** After any run, a packet that is sent is accepted if and only if the last attach or detach attached a channel and
      fewer packets wait, accepted but not started, than the queue takes; it is started at once exactly if none is on
      its way. A packet that is not accepted changes nothing. */
  lemma SendAccepted(capacity: nat, ops: seq<Op>, p: Packet)
    requires Runs(capacity, Fresh(), ops)
    ensures var d := After(capacity, Fresh(), ops);
      var e := Step(capacity, d, SendOp(p));
      if Linked(ops) && |d.past.accepted| - |d.past.started| < capacity then
        && e.past.accepted == d.past.accepted + [Stamped(p, d.now)]
        && e.past.started == d.past.started
          + (if |d.past.started| == |d.past.ended| then [Stamped(p, d.now)] else [])
      else e == d
  {
    var d := After(capacity, Fresh(), ops);
    FreshInv(capacity);
    RunKeeps(capacity, Fresh(), ops);
    RunLinks(capacity, ops);
    QueuedIs(d);
    assert |Packets(d.past.started)| == |d.past.ended| + |Current(d)|;
    assert d.queue == [] ==> (d.queue + [p])[0] == p;
  }

  /** Let the clock run to the due event and run it. */
  function NextEvent(d: Device): seq<Op>
    requires |d.pending| == 1 && 0 <= d.pending[0]
  {
    [Wait(d.pending[0]), CompleteOp]
  }

  lemma NextEventRuns(capacity: nat, d: Device)
    requires Inv(capacity, d) && |d.pending| == 1
    ensures 0 <= d.pending[0]
    ensures Runs(capacity, d, NextEvent(d))
    ensures Inv(capacity, After(capacity, d, NextEvent(d)))
    ensures After(capacity, d, NextEvent(d)) == TransmitComplete(d.(now := d.pending[0]))
  {
    var until: nat := d.pending[0];
    var w := Step(capacity, d, Wait(until));
    var ops := NextEvent(d);
    assert ops[1..] == [CompleteOp] && [CompleteOp][1..] == [];
    assert Enabled(d, ops[0]) && Enabled(w, CompleteOp);
    assert Runs(capacity, w, ops[1..]);
    RunKeeps(capacity, d, ops);
  }

  /** Left alone, the device works its queue off. */
  function Drained(capacity: nat, d: Device): Device
    requires Inv(capacity, d)
    decreases |d.queue| + |d.pending|
  {
    if d.machine == READY then d
    else
      NextEventRuns(capacity, d);
      Drained(capacity, After(capacity, d, NextEvent(d)))
  }

  /** It ends READY, and everything ever accepted has been sent, in order. */
  lemma {:induction false} DrainedSendsAll(capacity: nat, d: Device)
    requires Inv(capacity, d)
    ensures Drained(capacity, d).machine == READY
    ensures Drained(capacity, d).past.ended == Packets(d.past.accepted)
    decreases |d.queue| + |d.pending|
  {
    if d.machine == BUSY {
      NextEventRuns(capacity, d);
      DrainedSendsAll(capacity, After(capacity, d, NextEvent(d)));
    }
  }

  // ------------------------------------------------------------------ the device as the program keeps it

  class OpticalDevice {
    const capacity: nat
    var txMachineState: TxMachineState
    var currentPkt: Option<Packet>
    var queue: seq<Packet>
    var channel: bool
    var linkUp: bool
    /** The simulator. */
    var pending: seq<int>
    var now: nat
    ghost var past: Past

    ghost function Value(): Device
      reads this
    {
      Device(txMachineState, currentPkt, queue, channel, linkUp, pending, now, past)
    }

    constructor (capacity: nat)
      ensures this.capacity == capacity && Value() == Fresh() && Inv(capacity, Value())
    {
      this.capacity := capacity;
      txMachineState, currentPkt, queue, channel, linkUp, pending, now := READY, None, [], false, false, [], 0;
      past := Past([], [], []);
      new;
      FreshInv(capacity);
    }

    method Begin(p: Packet, carries: bool) returns (result: bool)
      requires txMachineState == READY
      modifies this
      ensures Value() == TransmitStart(old(Value()), p)
      ensures result <==> channel && carries
    {
      txMachineState, currentPkt := BUSY, Some(p);
      past := past.(started := past.started + [Stamped(p, now)]);
      pending := pending + [now + p.txTime];
      result := channel && carries;
    }

    /** The answer is true for a packet that waits or that the channel takes; it is false for a packet turned away,
        but also for one that was accepted and started without the channel taking it. */
    method Send(p: Packet, carries: bool) returns (sent: bool)
      requires Inv(capacity, Value())
      modifies this
      ensures Inv(capacity, Value())
      ensures Value() == Step(capacity, old(Value()), SendOp(p))
      ensures sent <==> Accepts(capacity, old(Value())) && (old(txMachineState) == BUSY || carries)
    {
      StepKeeps(capacity, Value(), SendOp(p));
      if !linkUp || !channel {
        return false;
      }
      if |queue| < capacity {
        queue := queue + [p];
        past := past.(accepted := past.accepted + [Stamped(p, now)]);
        if txMachineState == READY {
          var head := queue[0];
          queue := queue[1..];
          sent := Begin(head, carries);
          return;
        }
        return true;
      }
      return false;
    }

    /** The body of TransmitComplete, up to its assertions. */
    method Finish(carries: bool)
      requires pending != [] && txMachineState == BUSY && currentPkt.Some?
      modifies this
      ensures Value() == TransmitComplete(old(Value()))
    {
      pending := pending[1..];
      txMachineState := READY;
      past := past.(ended := past.ended + [currentPkt.value]);
      currentPkt := None;
      if queue != [] {
        var head := queue[0];
        queue := queue[1..];
        var _ := Begin(head, carries);
      }
    }

    method Complete(carries: bool)
      requires Inv(capacity, Value()) && Enabled(Value(), CompleteOp)
      modifies this
      ensures Inv(capacity, Value())
      ensures Value() == Step(capacity, old(Value()), CompleteOp)
    {
      StepKeeps(capacity, Value(), CompleteOp);
      Finish(carries);
    }

    method NotifyLinkUp()
      modifies this`linkUp
      ensures linkUp
    {
      linkUp := true;
    }

    method Attach(channel: bool)
      requires Inv(capacity, Value())
      modifies this
      ensures Inv(capacity, Value())
      ensures Value() == Step(capacity, old(Value()), AttachOp(channel))
      ensures linkUp && this.channel == channel
    {
      StepKeeps(capacity, Value(), AttachOp(channel));
      this.channel := channel;
      NotifyLinkUp();
    }

    method Detach()
      requires Inv(capacity, Value())
      modifies this
      ensures Inv(capacity, Value())
      ensures Value() == Step(capacity, old(Value()), DetachOp)
      ensures !linkUp && !channel
    {
      StepKeeps(capacity, Value(), DetachOp);
      channel := false;
      linkUp := false;
    }
  }
}
