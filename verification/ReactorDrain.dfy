/** Stopping: when IOManager::stopping answers true for good, and when it does not. */
module ReactorDrain {
  import opened Options
  import opened Reactor
  import opened ReactorInvariant

  // ---- The two gaps -----------------------------------------------------------------------------

  /** Expired callbacks are out of the timer set and not yet in the queue. */
  predicate InBatchGap(pc: Pc) {
    pc.IdleBatch? && pc.cbs != []
  }

  /** A READY fiber is no longer counted as active and not yet back in the queue. */
  predicate InRequeueGap(s: State, t: nat) {
    ThreadAt(s, t) && s.threads[t].pc.Settling? && StateIs(s, s.threads[t].pc.fiber, READY)
  }

  ghost predicate NoGap(s: State) {
    forall t: nat :: ThreadAt(s, t) ==> !InBatchGap(s.threads[t].pc) && !InRequeueGap(s, t)
  }

  ghost predicate AllInternal(run: seq<Step>) {
    forall i :: 0 <= i < |run| ==> Internal(run[i])
  }

  /** The answer stays true whatever the scheduler's own threads and fibers do next. */
  ghost predicate StaysStopped(s: State) {
    forall run :: IsRun(s, run) && AllInternal(run) ==> Stopping(After(s, run))
  }

  // ---- What the answer implies --------------------------------------------------------------------

  lemma CountZero(threads: seq<Thread>, t: nat, p: Pc -> bool)
    requires Count(threads, p) == 0 && t < |threads|
    ensures !p(threads[t].pc)
  {
    if t > 0 { CountZero(threads[1..], t - 1, p); }
  }

  /** A true answer means: no armed event, no timer, no queued task, no task in any thread's hands. */
  lemma AnswerMeansIdle(s: State)
    requires Inv(s) && Stopping(s)
    ensures s.waits == map[] && s.timers == map[] && s.queue == []
    ensures forall t: nat :: ThreadAt(s, t) ==> !CountsAsActive(s.threads[t].pc)
  {
    forall t: nat | ThreadAt(s, t) ensures !CountsAsActive(s.threads[t].pc) {
      CountZero(s.threads, t, CountsAsActive);
    }
  }

  // ---- No true answer without a stop request ------------------------------------------------------

  ghost predicate Requested(run: seq<Step>) {
    exists i :: 0 <= i < |run| && run[i].User? && run[i].call == RequestStop
  }

  /** Nobody has asked the scheduler to stop, and so no thread of it has left or is about to. */
  ghost predicate Unstopped(s: State) {
    && !s.autoStop && !s.stopRequested
    && forall t: nat :: ThreadAt(s, t) ==> !s.threads[t].idleDone && !s.threads[t].pc.Exited?
  }

  lemma UnstoppedUser(s: State, op: UserOp)
    requires Unstopped(s) && UserOk(s, op) && !op.RequestStop?
    ensures Unstopped(DoUser(s, op))
  {
    UserKeeps(s, op);
    match op
    case CancelEvent(_) =>
    case CancelAll(_) =>
    case _ =>
  }

  lemma UnstoppedWork(s: State, t: nat, op: WorkOp)
    requires Unstopped(s) && ThreadAt(s, t) && WorkOk(s, t, op)
    ensures Unstopped(DoWork(s, t, op))
  {
    match op
    case Pick => PickParts(s, t);
    case Start(g) =>
    case Settle =>
    case _ =>
  }

  lemma UnstoppedIdle(s: State, t: nat, op: IdleOp)
    requires Unstopped(s) && ThreadAt(s, t) && IdleOk(s, t, op)
    ensures Unstopped(DoIdle(s, t, op))
  {
    match op
    case CheckStopping =>
    case Expire(_) =>
    case Readiness(_, _) =>
    case _ =>
  }

  lemma {:induction false} UnstoppedAfter(s: State, run: seq<Step>)
    requires Unstopped(s) && IsRun(s, run) && !Requested(run)
    ensures Unstopped(After(s, run))
    decreases |run|
  {
    if run != [] {
      assert !(run[0].User? && run[0].call == RequestStop);
      assert forall i :: 0 <= i < |run[1..]| ==> run[1..][i] == run[i + 1];
      match run[0] {
        case User(_, op) => UnstoppedUser(s, op);
        case Work(t, op) => UnstoppedWork(s, t, op);
        case Idle(t, op) => UnstoppedIdle(s, t, op);
      }
      UnstoppedAfter(Apply(s, run[0]), run[1..]);
    }
  }

  /** In any run, stopping answers true, and a thread leaves, only after a stop was requested. */
  lemma StopNeedsRequest(n: nat, run: seq<Step>, t: nat)
    requires IsRun(Init(n), run)
    ensures Stopping(After(Init(n), run)) ==> exists i :: 0 <= i < |run| && run[i].User? && run[i].call == RequestStop
    ensures t < |After(Init(n), run).threads| && After(Init(n), run).threads[t].pc.Exited? ==>
      exists i :: 0 <= i < |run| && run[i].User? && run[i].call == RequestStop
  {
    if !Requested(run) { UnstoppedAfter(Init(n), run); }
  }

  lemma {:induction false} RequestedStays(s: State, run: seq<Step>)
    requires IsRun(s, run)
    ensures s.autoStop ==> After(s, run).autoStop
    ensures s.stopRequested ==> After(s, run).stopRequested
    ensures Requested(run) ==> After(s, run).autoStop && After(s, run).stopRequested
    decreases |run|
  {
    if run != [] {
      var a := run[0];
      FlagsStay(s, a);
      if Requested(run) {
        var i :| 0 <= i < |run| && run[i].User? && run[i].call == RequestStop;
        if i > 0 { assert run[1..][i - 1] == run[i]; }
      }
      RequestedStays(Apply(s, a), run[1..]);
    }
  }

  lemma FlagsUser(s: State, op: UserOp)
    requires UserOk(s, op)
    ensures DoUser(s, op).autoStop == (s.autoStop || op.RequestStop?)
    ensures DoUser(s, op).stopRequested == (s.stopRequested || op.RequestStop?)
  {
    match op
    case CancelEvent(_) =>
    case CancelAll(_) =>
    case _ =>
  }

  lemma FlagsWork(s: State, t: nat, op: WorkOp)
    requires ThreadAt(s, t) && WorkOk(s, t, op)
    ensures DoWork(s, t, op).autoStop == s.autoStop && DoWork(s, t, op).stopRequested == s.stopRequested
  {
    match op
    case Start(_) =>
    case Settle =>
    case _ =>
  }

  lemma FlagsIdle(s: State, t: nat, op: IdleOp)
    requires ThreadAt(s, t) && IdleOk(s, t, op)
    ensures DoIdle(s, t, op).autoStop == s.autoStop && DoIdle(s, t, op).stopRequested == s.stopRequested
  {
    match op
    case Expire(_) =>
    case Readiness(_, _) =>
    case _ =>
  }

  lemma FlagsStay(s: State, a: Step)
    requires Enabled(s, a)
    ensures s.autoStop ==> Apply(s, a).autoStop
    ensures s.stopRequested ==> Apply(s, a).stopRequested
    ensures a.User? && a.call == RequestStop ==> Apply(s, a).autoStop && Apply(s, a).stopRequested
  {
    match a
    case User(_, op) => FlagsUser(s, op);
    case Work(t, op) => FlagsWork(s, t, op);
    case Idle(t, op) => FlagsIdle(s, t, op);
  }

  lemma {:induction false} NoneCounted(threads: seq<Thread>, p: Pc -> bool)
    requires forall t :: 0 <= t < |threads| ==> !p(threads[t].pc)
    ensures Count(threads, p) == 0
  {
    if threads != [] { NoneCounted(threads[1..], p); }
  }

  /**
   And once it was, an idle thread that finds no armed event, no timer, no queued task and no thread holding or
   running one ends its idle fiber, and leaves when it next has nothing to do.
   */
  lemma RequestEndsIdle(n: nat, run: seq<Step>, t: nat)
    requires IsRun(Init(n), run) && Requested(run) && Enabled(After(Init(n), run), Idle(t, CheckStopping))
    requires var s := After(Init(n), run);
      && s.waits == map[] && s.timers == map[] && s.queue == []
      && forall u :: 0 <= u < |s.threads| ==>
           !s.threads[u].pc.Holding? && !s.threads[u].pc.Running? && !s.threads[u].pc.Returned?
    ensures var s2 := Apply(After(Init(n), run), Idle(t, CheckStopping));
      s2.threads[t].idleDone && s2.threads[t].pc == IdleLeave
  {
    var s := After(Init(n), run);
    RequestedStays(Init(n), run);
    InvInit(n);
    InvAfter(Init(n), run);
    NoneCounted(s.threads, CountsAsActive);
  }

  lemma IdleDoneLeaves(s: State, t: nat)
    requires Enabled(s, Idle(t, EnterIdle))
    ensures Apply(s, Idle(t, EnterIdle)).threads[t].pc.Exited? <==> s.threads[t].idleDone
  {
  }

  // ---- Stability without a gap ---------------------------------------------------------------------

  ghost predicate Quiet(s: State) {
    Stopping(s) && NoGap(s)
  }

  lemma QuietAt(s: State, s2: State, t: nat)
    requires Quiet(s) && Stopping(s2) && ThreadAt(s, t) && OnlyThread(s, s2, t)
    requires s2.threads[t].pc.Scanning? || s2.threads[t].pc.NoTask? || s2.threads[t].pc.Exited?
             || CountsAsIdle(s2.threads[t].pc)
    requires !InBatchGap(s2.threads[t].pc)
    requires forall f: FiberId :: StateIs(s2, f, READY) ==> StateIs(s, f, READY)
    ensures Quiet(s2)
  {
    forall u: nat | ThreadAt(s2, u) ensures !InBatchGap(s2.threads[u].pc) && !InRequeueGap(s2, u) {
      assert ThreadAt(s, u);
      if u != t { assert s2.threads[u] == s.threads[u]; }
    }
  }

  lemma QuietWork(s: State, a: Step)
    requires Inv(s) && Quiet(s) && Enabled(s, a) && a.Work?
    ensures Quiet(Apply(s, a))
  {
    AnswerMeansIdle(s);
    assert !CountsAsActive(s.threads[a.t].pc);
    match a.op
    case Pick => QuietAt(s, DoPick(s, a.t), a.t);
    case Settle =>
      assert !InRequeueGap(s, a.t);
      QuietAt(s, DoSettle(s, a.t), a.t);
  }

  lemma QuietIdle(s: State, a: Step)
    requires Inv(s) && Quiet(s) && Enabled(s, a) && a.Idle?
    requires a.iop.EnterIdle? || a.iop.CheckStopping? || a.iop.SwapOutIdle? || a.iop.LeaveIdle?
    ensures Quiet(Apply(s, a))
  {
    QuietAt(s, Apply(s, a), a.t);
  }

  lemma SomeIn<T>(xs: seq<T>)
    ensures xs != [] ==> exists x :: x in xs
  {
    if xs != [] { assert xs[0] in xs; }
  }

  lemma QuietExpire(s: State, t: nat, ks: seq<nat>)
    requires Inv(s) && Quiet(s) && Enabled(s, Idle(t, Expire(ks)))
    ensures Quiet(Apply(s, Idle(t, Expire(ks))))
  {
    SomeIn(ks);
    var s2 := DoExpire(s, t, ks);
    assert s2.timers == map[];
    QuietAt(s, s2, t);
  }

  lemma QuietBatch(s: State, t: nat)
    requires Inv(s) && Quiet(s) && Enabled(s, Idle(t, ScheduleBatch))
    ensures Quiet(Apply(s, Idle(t, ScheduleBatch)))
  {
    assert !InBatchGap(s.threads[t].pc);
    var s2 := DoScheduleBatch(s, t);
    assert s2.queue == [];
    QuietAt(s, s2, t);
  }

  lemma QuietReady(s: State, t: nat, fd: nat, events: set<Event>)
    requires Inv(s) && Quiet(s) && Enabled(s, Idle(t, Readiness(fd, events)))
    ensures Quiet(Apply(s, Idle(t, Readiness(fd, events))))
  {
    AnswerMeansIdle(s);
    var ws := Chosen(s.waits, fd, events);
    SomeIn(ws);
    assert Trigger(s, ws) == s;
  }

  lemma QuietStep(s: State, a: Step)
    requires Inv(s) && Quiet(s) && Enabled(s, a) && Internal(a)
    ensures Quiet(Apply(s, a))
  {
    match a
    case User(who, _) =>
      AnswerMeansIdle(s);
      assert CountsAsActive(s.threads[who.t].pc);
    case Work(_, _) => QuietWork(s, a);
    case Idle(t, Expire(ks)) => QuietExpire(s, t, ks);
    case Idle(t, ScheduleBatch) => QuietBatch(s, t);
    case Idle(t, Readiness(fd, events)) => QuietReady(s, t, fd, events);
    case Idle(_, _) => QuietIdle(s, a);
  }

  lemma QuietAfter(s: State, run: seq<Step>)
    requires Inv(s) && Quiet(s) && IsRun(s, run) && AllInternal(run)
    ensures Quiet(After(s, run))
    decreases |run|
  {
    if run != [] {
      assert Internal(run[0]);
      QuietStep(s, run[0]);
      KeepInv(s, run[0]);
      QuietAfter(Apply(s, run[0]), run[1..]);
    }
  }

  // ---- The gaps break the answer ---------------------------------------------------------------------

  /** A thread in a gap can make the answer false in one step. */
  lemma GapBreaks(s: State, t: nat)
    requires Stopping(s) && ThreadAt(s, t)
    requires InBatchGap(s.threads[t].pc) || InRequeueGap(s, t)
    ensures !StaysStopped(s)
  {
    var a := if InBatchGap(s.threads[t].pc) then Idle(t, ScheduleBatch) else Work(t, Settle);
    var run := [a];
    assert Enabled(s, a) && run[1..] == [];
    assert IsRun(Apply(s, a), run[1..]);
    assert IsRun(s, run) && AllInternal(run);
    assert After(s, run) == After(Apply(s, a), run[1..]) == Apply(s, a);
    assert |Apply(s, a).queue| > 0;
  }

  /** The exact condition: a true answer is final if and only if no thread is in a gap. */
  lemma DrainExact(s: State)
    requires Inv(s) && Stopping(s)
    ensures StaysStopped(s) <==> NoGap(s)
  {
    if NoGap(s) {
      forall run | IsRun(s, run) && AllInternal(run) ensures Stopping(After(s, run)) {
        QuietAfter(s, run);
      }
    } else {
      var t: nat :| ThreadAt(s, t) && (InBatchGap(s.threads[t].pc) || InRequeueGap(s, t));
      GapBreaks(s, t);
    }
  }

  // ---- Both gaps are reachable --------------------------------------------------------------------------

  lemma RunStep(s: State, run: seq<Step>, a: Step)
    requires IsRun(s, run) && Enabled(After(s, run), a)
    ensures IsRun(s, run + [a]) && After(s, run + [a]) == Apply(After(s, run), a)
    decreases |run|
  {
    if run == [] {
      assert run + [a] == [a] && [a][1..] == [];
      assert IsRun(Apply(s, a), [a][1..]);
    } else {
      assert (run + [a])[1..] == run[1..] + [a];
      RunStep(Apply(s, run[0]), run[1..], a);
    }
  }

  /** A timer expires on the only thread while nothing else is left: the answer is true too early. */
  lemma BatchGapReachable() returns (run: seq<Step>)
    ensures IsRun(Init(1), run) && Stopping(After(Init(1), run)) && !StaysStopped(After(Init(1), run))
  {
    var s := Init(1);
    run := [];
    RunStep(s, run, User(Outside, RequestStop)); run := run + [User(Outside, RequestStop)];
    var add := User(Outside, AddTimer(0, Timer(Other(0), false)));
    RunStep(s, run, add); run := run + [add];
    RunStep(s, run, Work(0, Pick)); run := run + [Work(0, Pick)];
    RunStep(s, run, Idle(0, EnterIdle)); run := run + [Idle(0, EnterIdle)];
    RunStep(s, run, Idle(0, CheckStopping)); run := run + [Idle(0, CheckStopping)];
    assert 0 in After(s, run).timers;
    RunStep(s, run, Idle(0, Expire([0]))); run := run + [Idle(0, Expire([0]))];
    assert After(s, run).timers == map[];
    assert After(s, run).threads[0].pc.cbs[0] == Other(0);
    GapBreaks(After(s, run), 0);
  }

  /** One thread holding one fiber that was scheduled from outside, with a stop requested. */
  function OneHeld(): State {
    State([], map[0 := INIT], map[], [Thread(Holding(RunFiber(0)), None, false)],
          map[], map[], 0, 1, 0, true, true)
  }

  lemma OneHeldReachable() returns (run: seq<Step>)
    ensures IsRun(Init(1), run) && After(Init(1), run) == OneHeld()
  {
    var s := Init(1);
    run := [];
    RunStep(s, run, User(Outside, RequestStop)); run := run + [User(Outside, RequestStop)];
    RunStep(s, run, User(Outside, NewFiber(0))); run := run + [User(Outside, NewFiber(0))];
    assert CanHandOut(After(s, run), 0);
    var put := User(Outside, Schedule(RunFiber(0), -1));
    RunStep(s, run, put); run := run + [put];
    RunStep(s, run, Work(0, Pick)); run := run + [Work(0, Pick)];
  }

  /** A fiber yields as READY; between the counter's decrement and the re-queue the answer is true. */
  lemma RequeueGapReachable() returns (run: seq<Step>)
    ensures IsRun(Init(1), run) && Stopping(After(Init(1), run)) && !StaysStopped(After(Init(1), run))
  {
    var s := Init(1);
    run := OneHeldReachable();
    RunStep(s, run, Work(0, Start(0))); run := run + [Work(0, Start(0))];
    assert !Outstanding(After(s, run), 0);
    RunStep(s, run, Work(0, YieldToReady)); run := run + [Work(0, YieldToReady)];
    RunStep(s, run, Work(0, Leave)); run := run + [Work(0, Leave)];
    GapBreaks(After(s, run), 0);
  }

}
