/** Accounts over runs: armed waits, and tasks from the queue to the threads' hands. */
module ReactorConservation {
  import opened Options
  import opened Reactor
  import opened ReactorInvariant

  // ---- Armed waits ------------------------------------------------------------------------------

  predicate Arms(a: Step, w: Wait) {
    a.User? && a.call.AddEvent? && a.call.w == w
  }

  predicate Deletes(s: State, a: Step, w: Wait) {
    a.User? && a.call == DelEvent(w) && w in s.waits
  }

  predicate Fires(s: State, a: Step, w: Wait) {
    w in Triggered(s, a)
  }

  ghost predicate WaitStep(s: State, a: Step, w: Wait)
    requires Enabled(s, a)
  {
    && (w in Apply(s, a).waits <==>
          Arms(a, w) || (w in s.waits && !Deletes(s, a, w) && !Fires(s, a, w)))
    && (w in s.waits && w in Apply(s, a).waits ==> Apply(s, a).waits[w] == s.waits[w])
  }

  lemma WaitsTriggered(s: State, a: Step, w: Wait)
    requires Enabled(s, a)
    requires (a.User? && (a.call.CancelEvent? || a.call.CancelAll?)) || (a.Idle? && a.iop.Readiness?)
    ensures Apply(s, a) == Trigger(s, Triggered(s, a)) && WaitStep(s, a, w)
  {
  }

  lemma WaitsCall(s: State, a: Step, w: Wait)
    requires Enabled(s, a) && a.User? && (a.call.AddEvent? || a.call.DelEvent?)
    ensures WaitStep(s, a, w)
  {
  }

  lemma WaitsTimer(s: State, a: Step)
    requires Enabled(s, a) && a.User? && (a.call.AddTimer? || a.call.CancelTimer?)
    ensures Apply(s, a).waits == s.waits
  {
  }

  lemma WaitsOther(s: State, a: Step)
    requires Enabled(s, a) && a.User?
    requires a.call.NewFiber? || a.call.Schedule? || a.call.RequestStop?
    ensures Apply(s, a).waits == s.waits
  {
  }

  lemma WaitsIdle(s: State, t: nat, op: IdleOp)
    requires ThreadAt(s, t) && IdleOk(s, t, op) && !op.Readiness?
    ensures DoIdle(s, t, op).waits == s.waits
  {
  }

  /** An armed wait keeps its parked task until exactly one step deletes or fires it. */
  lemma WaitsAfter(s: State, a: Step, w: Wait)
    requires Enabled(s, a)
    ensures WaitStep(s, a, w)
    ensures Arms(a, w) ==> w !in s.waits && Apply(s, a).waits[w] == a.call.task
  {
    match a
    case User(_, CancelEvent(_)) => WaitsTriggered(s, a, w);
    case User(_, CancelAll(_)) => WaitsTriggered(s, a, w);
    case User(_, AddEvent(_, _)) => WaitsCall(s, a, w);
    case User(_, DelEvent(_)) => WaitsCall(s, a, w);
    case User(_, AddTimer(_, _)) => WaitsTimer(s, a);
    case User(_, CancelTimer(_)) => WaitsTimer(s, a);
    case User(_, _) => WaitsOther(s, a);
    case Work(t, op) => WaitsWork(s, t, op);
    case Idle(_, Readiness(_, _)) => WaitsTriggered(s, a, w);
    case Idle(t, op) => WaitsIdle(s, t, op);
  }

  /** An armed wait is gone after a step exactly if the step was for it: a call on it, or a delivery of its event. */
  lemma GoneWhen(s: State, a: Step, w: Wait)
    requires Enabled(s, a) && w in s.waits
    ensures w !in Apply(s, a).waits <==>
      match a
      case User(_, DelEvent(v)) => w == v
      case User(_, CancelEvent(v)) => w == v
      case User(_, CancelAll(fd)) => w.fd == fd
      case Idle(_, Readiness(fd, events)) => w.fd == fd && w.event in events
      case _ => false
  {
    WaitsAfter(s, a, w);
    match a
    case User(_, DelEvent(v)) => assert Deletes(s, a, w) <==> w == v;
    case User(_, CancelAll(fd)) =>
      assert w.event == READ || w.event == WRITE;
      assert w == Wait(fd, w.event) <==> w.fd == fd;
    case Idle(_, Readiness(fd, _)) => assert w == Wait(fd, w.event) <==> w.fd == fd;
    case _ =>
  }

  /** Firing queues the parked task at exactly one new position; deleting queues nothing. */
  lemma FiredOnce(s: State, a: Step, w: Wait)
    requires Enabled(s, a) && w in s.waits
    ensures Deletes(s, a, w) ==> Apply(s, a).queue == s.queue
    ensures Fires(s, a, w) ==>
      && s.queue <= Apply(s, a).queue
      && |Apply(s, a).queue| == |s.queue| + |Triggered(s, a)|
      && var i := IndexOf(Triggered(s, a), w);
         Apply(s, a).queue[|s.queue| + i] == Entry(s.waits[w], -1)
         && forall j :: 0 <= j < |Triggered(s, a)| && Triggered(s, a)[j] == w ==> j == i
  {
    if Fires(s, a, w) {
      WaitsTriggered(s, a, w);
      forall j | 0 <= j < |Triggered(s, a)| && Triggered(s, a)[j] == w
        ensures j == IndexOf(Triggered(s, a), w)
      {
        IndexOfDistinct(Triggered(s, a), j);
      }
    }
  }

  ghost function Tally(s: State, run: seq<Step>, counts: (State, Step) -> bool): int
    requires IsRun(s, run)
    decreases |run|
  {
    if run == [] then 0
    else Bit(counts(s, run[0])) + Tally(Apply(s, run[0]), run[1..], counts)
  }

  /** Over any run every arm of w is deleted once, fired once, or still armed. */
  lemma {:induction false} WaitLedger(s: State, run: seq<Step>, w: Wait)
    requires IsRun(s, run)
    ensures Bit(w in s.waits) + Tally(s, run, (x, a) => Arms(a, w)) ==
            Bit(w in After(s, run).waits) + Tally(s, run, (x, a) => Deletes(x, a, w))
            + Tally(s, run, (x, a) => Fires(x, a, w))
    decreases |run|
  {
    if run != [] {
      WaitsAfter(s, run[0], w);
      assert !(Deletes(s, run[0], w) && Fires(s, run[0], w));
      WaitLedger(Apply(s, run[0]), run[1..], w);
    }
  }

  // ---- Tasks from the queue to the hands ------------------------------------------------------------

  /** How often task x is in the queue. */
  function Queued(queue: seq<Entry>, x: Task): int {
    if queue == [] then 0 else Bit(queue[0].task == x) + Queued(queue[1..], x)
  }

  predicate Holder(pc: Pc, x: Task) {
    pc == Holding(x)
  }

  /** How many threads hold task x, taken from the queue and not started. */
  function Held(threads: seq<Thread>, x: Task): int {
    if threads == [] then 0 else Bit(Holder(threads[0].pc, x)) + Held(threads[1..], x)
  }

  /** Everything accepted and not yet started. */
  function Backlog(s: State, x: Task): int {
    Queued(s.queue, x) + Held(s.threads, x)
  }

  /** What a step puts into the queue. */
  ghost function Accepted(s: State, a: Step): seq<Entry>
    requires Enabled(s, a)
  {
    match a
    case User(_, Schedule(task, thread)) => [Entry(task, thread)]
    case User(_, _) => Wakeups(s.waits, Triggered(s, a))
    case Work(t, FireWake) => [Entry(RunFiber(s.closures[s.threads[t].pc.fiber]), -1)]
    case Work(t, Settle) =>
      if StateIs(s, s.threads[t].pc.fiber, READY) then [Entry(RunFiber(s.threads[t].pc.fiber), -1)]
      else []
    case Work(_, _) => []
    case Idle(t, ScheduleBatch) =>
      var cbs := s.threads[t].pc.cbs;
      seq(|cbs|, i requires 0 <= i < |cbs| => Entry(RunCallback(cbs[i]), -1))
    case Idle(_, _) => Wakeups(s.waits, Triggered(s, a))
  }

  /** The step takes x out of a hand and runs it (or drops it, if its fiber is dead). */
  predicate Started(s: State, a: Step, x: Task) {
    a.Work? && a.op.Start? && ThreadAt(s, a.t) && s.threads[a.t].pc == Holding(x)
  }

  lemma QueuedConcat(p: seq<Entry>, q: seq<Entry>, x: Task)
    ensures Queued(p + q, x) == Queued(p, x) + Queued(q, x)
  {
    if p == [] {
      assert p + q == q;
    } else {
      assert (p + q)[1..] == p[1..] + q;
      QueuedConcat(p[1..], q, x);
    }
  }

  lemma QueuedRemove(q: seq<Entry>, i: nat, x: Task)
    requires i < |q|
    ensures Queued(q, x) == Queued(q[..i] + q[i + 1..], x) + Bit(q[i].task == x)
  {
    assert q == q[..i] + ([q[i]] + q[i + 1..]);
    QueuedConcat(q[..i], [q[i]] + q[i + 1..], x);
    QueuedConcat(q[..i], q[i + 1..], x);
    assert ([q[i]] + q[i + 1..])[1..] == q[i + 1..];
  }

  lemma HeldUpdate(threads: seq<Thread>, t: nat, y: Thread, x: Task)
    requires t < |threads|
    ensures Held(threads[t := y], x) ==
            Held(threads, x) - Bit(Holder(threads[t].pc, x)) + Bit(Holder(y.pc, x))
  {
    if t > 0 {
      assert threads[t := y][1..] == threads[1..][t - 1 := y];
      HeldUpdate(threads[1..], t - 1, y, x);
    } else {
      assert threads[t := y][1..] == threads[1..];
    }
  }

  /** A step of thread t that only appends es to the queue. */
  lemma Appended(s: State, s2: State, t: nat, es: seq<Entry>, x: Task)
    requires ThreadAt(s, t) && OnlyThread(s, s2, t) && s2.queue == s.queue + es
    ensures Backlog(s2, x) == Backlog(s, x) + Queued(es, x)
                              - Bit(Holder(s.threads[t].pc, x)) + Bit(Holder(s2.threads[t].pc, x))
  {
    assert s2.threads == s.threads[t := s2.threads[t]];
    HeldUpdate(s.threads, t, s2.threads[t], x);
    QueuedConcat(s.queue, es, x);
  }

  ghost predicate Balances(s: State, a: Step, x: Task)
    requires Enabled(s, a)
  {
    Backlog(s, x) + Queued(Accepted(s, a), x) == Backlog(Apply(s, a), x) + Bit(Started(s, a, x))
  }

  lemma QueueCall(s: State, a: Step)
    requires Enabled(s, a) && a.User?
    requires a.call.NewFiber? || a.call.Schedule? || a.call.RequestStop?
    ensures Apply(s, a).queue == s.queue + Accepted(s, a)
  {
  }

  lemma QueueParked(s: State, a: Step)
    requires Enabled(s, a) && a.User?
    requires a.call.AddEvent? || a.call.DelEvent? || a.call.AddTimer? || a.call.CancelTimer?
    ensures Apply(s, a).queue == s.queue + Accepted(s, a)
  {
  }

  lemma QueueUser(s: State, a: Step)
    requires Enabled(s, a) && a.User?
    ensures Apply(s, a).queue == s.queue + Accepted(s, a)
  {
    match a.call
    case CancelEvent(w) => WaitsTriggered(s, a, w);
    case CancelAll(fd) => WaitsTriggered(s, a, Wait(fd, READ));
    case NewFiber(_) => QueueCall(s, a);
    case Schedule(_, _) => QueueCall(s, a);
    case RequestStop => QueueCall(s, a);
    case _ => QueueParked(s, a);
  }

  lemma BalancePickParts(s: State, t: nat, x: Task)
    requires ThreadAt(s, t) && s.threads[t].pc.Scanning?
    ensures Backlog(s, x) == Backlog(DoPick(s, t), x)
  {
    var i := FirstEligible(s.queue, s.fibers, t);
    var s2 := DoPick(s, t);
    HeldUpdate(s.threads, t, s2.threads[t], x);
    if i < |s.queue| { QueuedRemove(s.queue, i, x); }
  }

  lemma BalancePick(s: State, t: nat, x: Task)
    requires Enabled(s, Work(t, Pick))
    ensures Balances(s, Work(t, Pick), x)
  {
    BalancePickParts(s, t, x);
  }

  lemma BalanceStartFiber(s: State, t: nat, f: FiberId, x: Task)
    requires ThreadAt(s, t) && s.threads[t].pc == Holding(RunFiber(f))
    ensures Backlog(s, x) == Backlog(DoStartFiber(s, t, f), x) + Bit(RunFiber(f) == x)
  {
    var s2 := DoStartFiber(s, t, f);
    assert s2.queue == s.queue + [];
    Appended(s, s2, t, [], x);
  }

  lemma BalanceStartCallback(s: State, t: nat, g: FiberId, cb: Callback, x: Task)
    requires ThreadAt(s, t) && s.threads[t].pc == Holding(RunCallback(cb))
    ensures Backlog(s, x) == Backlog(DoStartCallback(s, t, g, cb), x) + Bit(RunCallback(cb) == x)
  {
    var s2 := DoStartCallback(s, t, g, cb);
    assert s2.queue == s.queue + [];
    Appended(s, s2, t, [], x);
  }

  lemma BalanceStart(s: State, t: nat, g: FiberId, x: Task)
    requires Enabled(s, Work(t, Start(g)))
    ensures Balances(s, Work(t, Start(g)), x)
  {
    match s.threads[t].pc.task
    case RunFiber(f) => BalanceStartFiber(s, t, f, x);
    case RunCallback(cb) => BalanceStartCallback(s, t, g, cb, x);
  }

  lemma BalanceSettle(s: State, t: nat, x: Task)
    requires Enabled(s, Work(t, Settle))
    ensures Balances(s, Work(t, Settle), x)
  {
    Appended(s, DoSettle(s, t), t, Accepted(s, Work(t, Settle)), x);
  }

  lemma BalanceFireWake(s: State, t: nat, x: Task)
    requires Enabled(s, Work(t, FireWake))
    ensures Balances(s, Work(t, FireWake), x)
  {
    Appended(s, DoFireWake(s, t), t, Accepted(s, Work(t, FireWake)), x);
  }

  lemma BalanceYield(s: State, a: Step, x: Task)
    requires Enabled(s, a) && a.Work?
    requires a.op.YieldToHold? || a.op.YieldToReady? || a.op.Finish? || a.op.Leave?
    ensures Balances(s, a, x)
  {
    Appended(s, Apply(s, a), a.t, [], x);
  }

  lemma BalanceBatch(s: State, t: nat, x: Task)
    requires Enabled(s, Idle(t, ScheduleBatch))
    ensures Balances(s, Idle(t, ScheduleBatch), x)
  {
    Appended(s, DoScheduleBatch(s, t), t, Accepted(s, Idle(t, ScheduleBatch)), x);
  }

  lemma BalanceExpire(s: State, t: nat, ks: seq<nat>, x: Task)
    requires Enabled(s, Idle(t, Expire(ks)))
    ensures Balances(s, Idle(t, Expire(ks)), x)
  {
    Appended(s, DoExpire(s, t, ks), t, [], x);
  }

  lemma BalanceReady(s: State, t: nat, fd: nat, events: set<Event>, x: Task)
    requires Enabled(s, Idle(t, Readiness(fd, events)))
    ensures Balances(s, Idle(t, Readiness(fd, events)), x)
  {
    QueuedConcat(s.queue, Wakeups(s.waits, Chosen(s.waits, fd, events)), x);
  }

  lemma BalanceIdle(s: State, a: Step, x: Task)
    requires Enabled(s, a) && a.Idle?
    requires a.iop.EnterIdle? || a.iop.CheckStopping? || a.iop.SwapOutIdle? || a.iop.LeaveIdle?
    ensures Balances(s, a, x)
  {
    Appended(s, Apply(s, a), a.t, [], x);
  }

  lemma BalanceUser(s: State, a: Step, x: Task)
    requires Enabled(s, a) && a.User?
    ensures Balances(s, a, x)
  {
    ThreadsUser(s, a);
    QueueUser(s, a);
    QueuedConcat(s.queue, Accepted(s, a), x);
  }

  lemma BalanceStep(s: State, a: Step, x: Task)
    requires Enabled(s, a)
    ensures Balances(s, a, x)
  {
    match a
    case User(_, _) => BalanceUser(s, a, x);
    case Work(t, Pick) => BalancePick(s, t, x);
    case Work(t, Start(g)) => BalanceStart(s, t, g, x);
    case Work(t, Settle) => BalanceSettle(s, t, x);
    case Work(t, FireWake) => BalanceFireWake(s, t, x);
    case Work(_, _) => BalanceYield(s, a, x);
    case Idle(t, ScheduleBatch) => BalanceBatch(s, t, x);
    case Idle(t, Expire(ks)) => BalanceExpire(s, t, ks, x);
    case Idle(t, Readiness(fd, events)) => BalanceReady(s, t, fd, events, x);
    case Idle(_, _) => BalanceIdle(s, a, x);
  }

  ghost function AllAccepted(s: State, run: seq<Step>, x: Task): int
    requires IsRun(s, run)
    decreases |run|
  {
    if run == [] then 0
    else Queued(Accepted(s, run[0]), x) + AllAccepted(Apply(s, run[0]), run[1..], x)
  }

  ghost function AllStarted(s: State, run: seq<Step>, x: Task): int
    requires IsRun(s, run)
    decreases |run|
  {
    if run == [] then 0
    else Bit(Started(s, run[0], x)) + AllStarted(Apply(s, run[0]), run[1..], x)
  }

  /** Over any run no accepted task is lost or duplicated between the queue and its start. */
  lemma {:induction false} TaskConservation(s: State, run: seq<Step>, x: Task)
    requires IsRun(s, run)
    ensures Backlog(s, x) + AllAccepted(s, run, x) ==
            Backlog(After(s, run), x) + AllStarted(s, run, x)
    decreases |run|
  {
    if run != [] {
      BalanceStep(s, run[0], x);
      TaskConservation(Apply(s, run[0]), run[1..], x);
    }
  }

}
