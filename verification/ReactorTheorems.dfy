/** What holds of every run of the reactor. */
module ReactorTheorems {
  import opened Options
  import opened Reactor
  import opened ReactorInvariant

  // ---- One owner -----------------------------------------------------------------------------

  /** In every reachable state no fiber is in two threads' hands, by execution or by queue entry. */
  lemma SingleOwner(n: nat, run: seq<Step>, t: nat, u: nat, f: FiberId)
    requires IsRun(Init(n), run)
    requires Runs(After(Init(n), run), t, f) || InHandOf(After(Init(n), run), t, f)
    requires Runs(After(Init(n), run), u, f) || InHandOf(After(Init(n), run), u, f)
    ensures t == u
  {
    InvInit(n);
    InvAfter(Init(n), run);
    var s := After(Init(n), run);
    if InHandOf(s, t, f) && InHandOf(s, u, f) {
      assert Holds(s, InHand(t), f) && Holds(s, InHand(u), f);
    }
  }

  /** swapIn's assertion that the fiber is not EXEC, and reset's on a spare fiber, never fail. */
  lemma SwapInSafe(n: nat, run: seq<Step>, t: nat, g: FiberId)
    requires IsRun(Init(n), run) && Enabled(After(Init(n), run), Work(t, Start(g)))
    ensures var s := After(Init(n), run);
            match s.threads[t].pc.task
            case RunFiber(f) => f in s.fibers && s.fibers[f] != EXEC
            case RunCallback(_) => g in s.fibers ==> s.fibers[g] == INIT
  {
    InvInit(n);
    InvAfter(Init(n), run);
    var s := After(Init(n), run);
    match s.threads[t].pc.task
    case RunFiber(f) =>
      assert Holds(s, InHand(t), f) && InHandOf(s, t, f);
      assert StateIs(s, f, EXEC) ==> exists u: nat :: Runs(s, u, f);
    case RunCallback(_) => CallbackFiberFresh(s, t, g);
  }

  /** A wake-up that fires before the swap-out completes cannot be taken by any thread. */
  lemma EarlyWakeupWaits(s: State, t: nat, u: nat, f: FiberId, e: Entry)
    requires Inv(s) && Runs(s, t, f) && e in s.queue && e.task == RunFiber(f)
    ensures !Eligible(e, s.fibers, u)
  {
    var i :| 0 <= i < |s.queue| && s.queue[i] == e;
    assert Holds(s, InQueue(i), f);
  }

  /**
   In any run, what a thread takes is an entry for any thread or for itself, of no fiber still in EXEC; every entry
   before it is for another thread or of such a fiber, and the others stay in the queue.  It takes none only if all
   are such.
   */
  lemma PinnedPick(n: nat, run: seq<Step>, t: nat)
    requires IsRun(Init(n), run) && Enabled(After(Init(n), run), Work(t, Pick))
    ensures var s, s2 := After(Init(n), run), Apply(After(Init(n), run), Work(t, Pick));
      if s2.threads[t].pc.Holding? then
        exists i :: 0 <= i < |s.queue| && s2.threads[t].pc.task == s.queue[i].task
          && s2.queue == s.queue[..i] + s.queue[i + 1..]
          && (s.queue[i].thread == -1 || s.queue[i].thread == t)
          && (s.queue[i].task.RunFiber? ==> !StateIs(s, s.queue[i].task.fiber, EXEC))
          && forall j :: 0 <= j < i ==>
               (s.queue[j].thread != -1 && s.queue[j].thread != t)
               || (s.queue[j].task.RunFiber? && StateIs(s, s.queue[j].task.fiber, EXEC))
      else
        s2.queue == s.queue && forall j :: 0 <= j < |s.queue| ==>
          (s.queue[j].thread != -1 && s.queue[j].thread != t)
          || (s.queue[j].task.RunFiber? && StateIs(s, s.queue[j].task.fiber, EXEC))
  {
    var s := After(Init(n), run);
    var i := FirstEligible(s.queue, s.fibers, t);
    PickParts(s, t);
    assert i < |s.queue| ==> Eligible(s.queue[i], s.fibers, t);
  }

  // ---- What becomes of fibers and timers --------------------------------------------------------

  /** A fiber of the user's that has ended: nobody is inside it, and no thread keeps it for callbacks. */
  ghost predicate Ended(s: State, f: FiberId) {
    && f in s.fibers && (s.fibers[f] == TERM || s.fibers[f] == EXCEPT)
    && forall t: nat :: ThreadAt(s, t) ==>
         !Pockets(s, t, f) && (Runs(s, t, f) ==> !s.threads[t].pc.Running? && !s.threads[t].pc.fromCb)
  }

  lemma EndedStartFiber(s: State, t: nat, g: FiberId, f: FiberId)
    requires ThreadAt(s, t) && Ended(s, f)
    ensures Ended(DoStartFiber(s, t, g), f)
  {
    var s2 := DoStartFiber(s, t, g);
    assert g == f ==> Dead(s, g);
    forall u: nat | ThreadAt(s2, u)
      ensures !Pockets(s2, u, f) && (Runs(s2, u, f) ==> !s2.threads[u].pc.Running? && !s2.threads[u].pc.fromCb)
    {
      assert ThreadAt(s, u);
    }
  }

  lemma EndedStartCallback(s: State, t: nat, g: FiberId, cb: Callback, f: FiberId)
    requires ThreadAt(s, t) && Ended(s, f) && g != f
    ensures Ended(DoStartCallback(s, t, g, cb), f)
  {
    var s2 := DoStartCallback(s, t, g, cb);
    forall u: nat | ThreadAt(s2, u)
      ensures !Pockets(s2, u, f) && (Runs(s2, u, f) ==> !s2.threads[u].pc.Running? && !s2.threads[u].pc.fromCb)
    {
      assert ThreadAt(s, u);
    }
  }

  lemma EndedStart(s: State, t: nat, g: FiberId, f: FiberId)
    requires Ended(s, f) && Enabled(s, Work(t, Start(g)))
    ensures Ended(Apply(s, Work(t, Start(g))), f)
  {
    match s.threads[t].pc.task
    case RunFiber(h) => EndedStartFiber(s, t, h, f);
    case RunCallback(cb) =>
      assert g == f ==> Pockets(s, t, f) || f !in s.fibers;
      EndedStartCallback(s, t, g, cb, f);
  }

  lemma EndedPick(s: State, t: nat, f: FiberId)
    requires Ended(s, f) && Enabled(s, Work(t, Pick))
    ensures Ended(Apply(s, Work(t, Pick)), f)
  {
    PickParts(s, t);
  }

  lemma EndedSettle(s: State, t: nat, f: FiberId)
    requires Inv(s) && Ended(s, f) && Enabled(s, Work(t, Settle))
    ensures Ended(Apply(s, Work(t, Settle)), f)
  {
    var s2 := DoSettle(s, t);
    assert ThreadAt(s, t) && (s.threads[t].pc.fiber == f ==> Runs(s, t, f));
    forall u: nat | ThreadAt(s2, u)
      ensures !Pockets(s2, u, f) && (Runs(s2, u, f) ==> !s2.threads[u].pc.Running? && !s2.threads[u].pc.fromCb)
    {
      assert ThreadAt(s, u);
    }
  }

  lemma EndedWork(s: State, a: Step, f: FiberId)
    requires Ended(s, f) && Enabled(s, a) && a.Work? && !a.op.Pick? && !a.op.Start? && !a.op.Settle?
    ensures Ended(Apply(s, a), f)
  {
    assert ThreadAt(s, a.t);
    assert s.threads[a.t].pc.Running? && s.threads[a.t].pc.fiber == f ==> Runs(s, a.t, f);
    forall u: nat | ThreadAt(Apply(s, a), u)
      ensures !Pockets(Apply(s, a), u, f)
      ensures Runs(Apply(s, a), u, f) ==> !Apply(s, a).threads[u].pc.Running? && !Apply(s, a).threads[u].pc.fromCb
    {
      assert ThreadAt(s, u);
    }
  }

  lemma EndedIdle(s: State, a: Step, f: FiberId)
    requires Ended(s, f) && Enabled(s, a) && a.Idle?
    ensures Ended(Apply(s, a), f)
  {
    FiberAfter(s, a, f);
    RunsHere(s, a, f);
    assert StateIs(s, f, s.fibers[f]);
    forall u: nat | ThreadAt(Apply(s, a), u)
      ensures !Pockets(Apply(s, a), u, f)
      ensures Runs(Apply(s, a), u, f) ==> !Apply(s, a).threads[u].pc.Running? && !Apply(s, a).threads[u].pc.fromCb
    {
      assert ThreadAt(s, u);
      AllLocal(s, a, u, f);
    }
  }

  lemma EndedUser(s: State, a: Step, f: FiberId)
    requires Ended(s, f) && Enabled(s, a) && a.User?
    ensures Ended(Apply(s, a), f)
  {
    ThreadsUser(s, a);
    FiberAfter(s, a, f);
    assert StateIs(s, f, s.fibers[f]);
    assert forall t: nat :: ThreadAt(Apply(s, a), t) ==> ThreadAt(s, t);
  }

  /** A fiber that has ended is never run again, whatever still names it. */
  lemma {:induction false} EndedForGood(s: State, run: seq<Step>, f: FiberId)
    requires Inv(s) && Ended(s, f) && IsRun(s, run)
    ensures Ended(After(s, run), f)
    decreases |run|
  {
    if run != [] {
      var a := run[0];
      match a {
        case User(_, _) => EndedUser(s, a, f);
        case Work(t, Pick) => EndedPick(s, t, f);
        case Work(t, Start(g)) => EndedStart(s, t, g, f);
        case Work(t, Settle) => EndedSettle(s, t, f);
        case Work(_, _) => EndedWork(s, a, f);
        case Idle(_, _) => EndedIdle(s, a, f);
      }
      KeepInv(s, a);
      EndedForGood(Apply(s, a), run[1..], f);
    }
  }

  /** What listExpiredCb takes: the one-shot timers it names are gone, recurring ones and all others stay. */
  lemma ExpiredTimers(s: State, t: nat, ks: seq<nat>)
    requires Enabled(s, Idle(t, Expire(ks)))
    ensures var s2 := Apply(s, Idle(t, Expire(ks)));
      && (forall k :: k in s2.timers <==> k in s.timers && (k !in ks || s.timers[k].recurring))
      && (forall k :: k in s2.timers ==> s2.timers[k] == s.timers[k])
      && s2.threads[t].pc.IdleBatch? && |s2.threads[t].pc.cbs| == |ks|
      && forall i :: 0 <= i < |ks| ==> ks[i] in s.timers && s2.threads[t].pc.cbs[i] == s.timers[ks[i]].cb
  {
    forall i | 0 <= i < |ks| ensures ks[i] in s.timers { assert ks[i] in ks; }
  }

  /** A fiber that yielded READY goes back to the end of the queue, for any thread; one that did not waits as HOLD. */
  lemma Settled(s: State, t: nat)
    requires Inv(s) && Enabled(s, Work(t, Settle))
    ensures var s2, f := Apply(s, Work(t, Settle)), s.threads[t].pc.fiber;
      && (s.fibers[f] == READY ==> s2.queue == s.queue + [Entry(RunFiber(f), -1)] && s2.fibers == s.fibers)
      && (s.fibers[f] == EXEC ==> s2.queue == s.queue && s2.fibers == s.fibers[f := HOLD])
      && (s.fibers[f] == TERM || s.fibers[f] == EXCEPT ==> s2.queue == s.queue)
      && s2.threads[t].pc == Scanning
  {
    assert Runs(s, t, s.threads[t].pc.fiber);
  }

  /** The queue keeps what it had, and what is new in it is for any thread. */
  ghost predicate Grew(was: seq<Entry>, now: seq<Entry>) {
    && was <= now
    && forall i :: |was| <= i < |now| ==> now[i].thread == -1
  }

  lemma TriggerGrows(s: State, ws: seq<Wait>)
    requires forall w :: w in ws ==> w in s.waits
    ensures Grew(s.queue, Trigger(s, ws).queue)
  {
  }

  lemma UserGrows(s: State, op: UserOp)
    requires !op.Schedule?
    ensures Grew(s.queue, DoUser(s, op).queue)
  {
    match op {
      case CancelEvent(w) => TriggerGrows(s, Cancelled(s.waits, w));
      case CancelAll(fd) => TriggerGrows(s, Chosen(s.waits, fd, {READ, WRITE}));
      case _ =>
    }
  }

  lemma WorkGrows(s: State, t: nat, op: WorkOp)
    requires ThreadAt(s, t) && WorkOk(s, t, op) && !op.Pick?
    ensures Grew(s.queue, DoWork(s, t, op).queue)
  {
    match op {
      case Settle => assert DoWork(s, t, op) == DoSettle(s, t);
      case FireWake => assert DoWork(s, t, op) == DoFireWake(s, t);
      case Start(g) => assert DoWork(s, t, op) == DoStart(s, t, g);
      case _ =>
    }
  }

  lemma IdleGrows(s: State, t: nat, op: IdleOp)
    requires ThreadAt(s, t) && IdleOk(s, t, op)
    ensures Grew(s.queue, DoIdle(s, t, op).queue)
  {
    match op {
      case Readiness(fd, events) => TriggerGrows(s, Chosen(s.waits, fd, events));
      case ScheduleBatch => assert DoIdle(s, t, op) == DoScheduleBatch(s, t);
      case _ =>
    }
  }

  /** Nothing but a task's being taken shortens the queue, and only user code's schedule queues for one thread. */
  lemma OnlySchedulePins(s: State, a: Step)
    requires Enabled(s, a) && !(a.Work? && a.op.Pick?)
    ensures if a.User? && a.call.Schedule? then
              Apply(s, a).queue == s.queue + [Entry(a.call.task, a.call.thread)]
            else
              s.queue <= Apply(s, a).queue
              && forall i :: |s.queue| <= i < |Apply(s, a).queue| ==> Apply(s, a).queue[i].thread == -1
  {
    match a
    case User(_, op) => if !op.Schedule? { UserGrows(s, op); }
    case Work(t, op) => WorkGrows(s, t, op);
    case Idle(t, op) => IdleGrows(s, t, op);
  }

  /** Expired callbacks are queued in the order in which they were taken, for any thread. */
  lemma BatchQueued(s: State, t: nat)
    requires Enabled(s, Idle(t, ScheduleBatch))
    ensures var s2, cbs := Apply(s, Idle(t, ScheduleBatch)), s.threads[t].pc.cbs;
      && s.queue <= s2.queue && |s2.queue| == |s.queue| + |cbs|
      && forall i :: 0 <= i < |cbs| ==> s2.queue[|s.queue| + i] == Entry(RunCallback(cbs[i]), -1)
  {
  }

  // ---- The wake-up ledger ----------------------------------------------------------------------

  /** The step resumes fiber f: swapIn of a queued fiber. */
  predicate Resumes(s: State, a: Step, f: FiberId) {
    && a.Work? && a.op.Start? && ThreadAt(s, a.t)
    && s.threads[a.t].pc == Holding(RunFiber(f)) && !Dead(s, f)
  }

  /** The step throws f's wake-up away: delEvent, a timer's cancel, a dead fiber, an ended callback. */
  predicate Discards(s: State, a: Step, f: FiberId) {
    match a
    case User(_, DelEvent(w)) => w in s.waits && Wakes(s.waits[w], f)
    case User(_, CancelTimer(k)) => k in s.timers && s.timers[k].cb == Wake(f)
    case User(_, _) => false
    case Work(t, Start(_)) =>
      ThreadAt(s, t) && s.threads[t].pc == Holding(RunFiber(f)) && Dead(s, f)
    case Work(t, Finish(_)) =>
      && ThreadAt(s, t) && s.threads[t].pc.Running? && s.threads[t].pc.fiber in s.closures
      && s.closures[s.threads[t].pc.fiber] == f
    case Work(_, _) => false
    case Idle(_, _) => false
  }

  /** Where a step puts the wake-up it creates. */
  function BirthPlace(s: State, a: Step): Place {
    match a
    case User(_, AddEvent(w, _)) => InWait(w)
    case User(_, AddTimer(k, _)) => InTimer(k)
    case _ => InQueue(|s.queue|)
  }

  /** The step creates a wake-up for f: schedule, addEvent, addTimer, or a READY re-queue. */
  ghost predicate Mints(s: State, a: Step, f: FiberId)
    requires Enabled(s, a)
  {
    Born(s, a, BirthPlace(s, a), f)
  }

  ghost predicate GoneRight(s: State, a: Step, p: Place, f: FiberId)
    requires Enabled(s, a)
  {
    && (Forward(s, a, p).Gone? <==> (Resumes(s, a, f) || Discards(s, a, f)))
    && !(Resumes(s, a, f) && Discards(s, a, f))
  }

  lemma GoneByUser(s: State, a: Step, p: Place, f: FiberId)
    requires Inv(s) && Enabled(s, a) && Holds(s, p, f) && a.User?
    ensures GoneRight(s, a, p, f)
  {
    match a.call
    case DelEvent(w) => assert Discards(s, a, f) ==> Holds(s, InWait(w), f);
    case CancelTimer(k) => assert Discards(s, a, f) ==> Holds(s, InTimer(k), f);
    case _ =>
  }

  lemma GoneByStart(s: State, t: nat, g: FiberId, p: Place, f: FiberId)
    requires Inv(s) && Enabled(s, Work(t, Start(g))) && Holds(s, p, f)
    ensures GoneRight(s, Work(t, Start(g)), p, f)
  {
    var a := Work(t, Start(g));
    assert Resumes(s, a, f) || Discards(s, a, f) ==> Holds(s, InHand(t), f);
  }

  lemma GoneByFinish(s: State, t: nat, threw: bool, p: Place, f: FiberId)
    requires Inv(s) && Enabled(s, Work(t, Finish(threw))) && Holds(s, p, f)
    ensures GoneRight(s, Work(t, Finish(threw)), p, f)
  {
    assert Discards(s, Work(t, Finish(threw)), f) ==> Holds(s, InClosure(s.threads[t].pc.fiber), f);
  }

  lemma NotGone(s: State, a: Step, p: Place, f: FiberId)
    requires Enabled(s, a) && Holds(s, p, f) && (a.Work? ==> !a.op.Start? && !a.op.Finish?) && !a.User?
    ensures GoneRight(s, a, p, f)
  {
  }

  /** A wake-up leaves the books only by resuming its fiber or by being discarded. */
  lemma GoneMeans(s: State, a: Step, p: Place, f: FiberId)
    requires Inv(s) && Enabled(s, a) && Holds(s, p, f)
    ensures Forward(s, a, p).Gone? <==> (Resumes(s, a, f) || Discards(s, a, f))
    ensures !(Resumes(s, a, f) && Discards(s, a, f))
  {
    match a
    case User(_, _) => GoneByUser(s, a, p, f);
    case Work(t, Start(g)) => GoneByStart(s, t, g, p, f);
    case Work(t, Finish(threw)) => GoneByFinish(s, t, threw, p, f);
    case _ => NotGone(s, a, p, f);
  }

  /** Consumption needs an outstanding wake-up. */
  lemma SpentWasHeld(s: State, a: Step, f: FiberId)
    requires Enabled(s, a) && (Resumes(s, a, f) || Discards(s, a, f))
    ensures Outstanding(s, f)
  {
    match a
    case User(_, DelEvent(w)) => assert Holds(s, InWait(w), f);
    case User(_, CancelTimer(k)) => assert Holds(s, InTimer(k), f);
    case Work(t, Start(_)) => assert Holds(s, InHand(t), f);
    case Work(t, Finish(_)) => assert Holds(s, InClosure(s.threads[t].pc.fiber), f);
  }

  lemma BornAtBirthPlace(s: State, a: Step, p: Place, f: FiberId)
    requires Enabled(s, a) && Born(s, a, p, f)
    ensures p == BirthPlace(s, a)
  {
  }

  /** f's wake-ups balance over one step. */
  lemma LedgerStep(s: State, a: Step, f: FiberId)
    requires Inv(s) && Enabled(s, a)
    ensures Bit(Outstanding(s, f)) + Bit(Mints(s, a, f)) ==
            Bit(Outstanding(Apply(s, a), f)) + Bit(Resumes(s, a, f)) + Bit(Discards(s, a, f))
  {
    var s2 := Apply(s, a);
    if Resumes(s, a, f) || Discards(s, a, f) { SpentWasHeld(s, a, f); }
    if Mints(s, a, f) {
      BornFresh(s, a, BirthPlace(s, a), f);
      MintedHeld(s, a, f);
    } else if Outstanding(s, f) {
      var p :| Holds(s, p, f);
      GoneMeans(s, a, p, f);
      AllCarried(s, a, p, f);
      if Forward(s, a, p).Gone? {
        forall q | Holds(s2, q, f) ensures false { OnlyWasAt(s, a, p, q, f); }
      }
    } else {
      forall q | Holds(s2, q, f) ensures false {
        AllCarried(s, a, q, f);
        if Born(s, a, q, f) { BornAtBirthPlace(s, a, q, f); }
      }
    }
  }

  lemma OnlyWasAt(s: State, a: Step, p: Place, q: Place, f: FiberId)
    requires Inv(s) && Enabled(s, a) && Holds(s, p, f) && Holds(Apply(s, a), q, f)
    requires !Mints(s, a, f)
    ensures Forward(s, a, p) == q
  {
    AllCarried(s, a, q, f);
    if Born(s, a, q, f) { BornAtBirthPlace(s, a, q, f); }
    assert Holds(s, Back(s, a, q), f);
  }

  lemma MintedHeld(s: State, a: Step, f: FiberId)
    requires Enabled(s, a) && Mints(s, a, f)
    ensures Outstanding(Apply(s, a), f)
  {
    assert Holds(Apply(s, a), BirthPlace(s, a), f);
  }

  ghost function Minted(s: State, run: seq<Step>, f: FiberId): int
    requires IsRun(s, run)
    decreases |run|
  {
    if run == [] then 0 else Bit(Mints(s, run[0], f)) + Minted(Apply(s, run[0]), run[1..], f)
  }

  ghost function Resumed(s: State, run: seq<Step>, f: FiberId): (n: int)
    requires IsRun(s, run)
    decreases |run|
  {
    if run == [] then 0 else Bit(Resumes(s, run[0], f)) + Resumed(Apply(s, run[0]), run[1..], f)
  }

  ghost function Discarded(s: State, run: seq<Step>, f: FiberId): (n: int)
    requires IsRun(s, run)
    decreases |run|
  {
    if run == [] then 0 else Bit(Discards(s, run[0], f)) + Discarded(Apply(s, run[0]), run[1..], f)
  }

  /** Over any run every wake-up of f resumed f once, or was discarded once, or is outstanding. */
  lemma {:induction false} Ledger(s: State, run: seq<Step>, f: FiberId)
    requires Inv(s) && IsRun(s, run)
    ensures Bit(Outstanding(s, f)) + Minted(s, run, f) ==
            Bit(Outstanding(After(s, run), f)) + Resumed(s, run, f) + Discarded(s, run, f)
    decreases |run|
  {
    if run != [] {
      LedgerStep(s, run[0], f);
      KeepInv(s, run[0]);
      Ledger(Apply(s, run[0]), run[1..], f);
    }
  }

}
