/**
 A hooked blocking call inside the reactor: what do_io asks of the scheduler and the epoll manager always meets
 the wake-up discipline, and whatever they do to its fiber is a step the call is ready for.
 */
module HookDiscipline {
  import opened Options
  import opened Reactor
  import opened ReactorInvariant
  import opened ReactorTheorems
  import opened ReactorConservation
  import H = HookIo

  /** One step of the call, of the reactor, or of both at once. */
  datatype Move = Move(h: Option<H.Step>, a: Option<Step>)

  predicate RunningOn(s: State, t: nat, f: FiberId) {
    ThreadAt(s, t) && s.threads[t].pc.Running? && s.threads[t].pc.fiber == f
  }

  predicate Live(s: State, f: FiberId) {
    f in s.fibers && (s.fibers[f] == EXEC || s.fibers[f] == HOLD)
  }

  /** The call is out of its wait and its fiber has control. */
  predicate InControl(c: H.Call) {
    c.phase == H.Trying || c.phase == H.Arming || c.phase == H.Checking
  }

  /** How a call made by fiber f that waits for w shows in the reactor. */
  ghost predicate Tied(s: State, c: H.Call, f: FiberId, w: Wait) {
    && (c.armed <==> c.phase == H.Parked)
    && (InControl(c) ==> !Outstanding(s, f) && exists t :: RunningOn(s, t, f))
    && (c.phase == H.Parked ==> w in s.waits && s.waits[w] == RunFiber(f) && Live(s, f))
    && (c.phase == H.Woken ==> Backlog(s, RunFiber(f)) > 0 && Live(s, f))
  }

  /** The fiber's own thread: while the call has control it does not swap out, and when it waits it yields HOLD. */
  predicate OwnPace(s: State, c: H.Call, f: FiberId, a: Step) {
    a.Work? && RunningOn(s, a.t, f) && !c.phase.Returned? ==>
      match a.op
      case YieldToHold => !InControl(c)
      case YieldToReady => false
      case Finish(_) => false
      case _ => true
  }

  /** A reactor step that is none of the call's: nobody else wakes its fiber or touches its wait. */
  ghost predicate Aside(s: State, c: H.Call, f: FiberId, w: Wait, a: Step) {
    && Enabled(s, a) && OwnPace(s, c, f, a)
    && (c.phase.Returned? || (!Mints(s, a, f) && !Resumes(s, a, f)))
    && (c.armed ==> !Fires(s, a, w) && !Deletes(s, a, w))
  }

  /** What the call does, and what may be done to it, said without the wake-up discipline. */
  ghost predicate Follows(s: State, c: H.Call, f: FiberId, w: Wait, m: Move) {
    match m.h
    case None => m.a.Some? && Aside(s, c, f, w, m.a.value)
    case Some(Arm(true)) =>
      // addEvent by the running fiber; that the event is not armed is its own assertion.
      H.Enabled(c, H.Arm(true)) && w !in s.waits
      && exists t :: RunningOn(s, t, f) && m.a == Some(User(FiberOn(t), AddEvent(w, RunFiber(f))))
    case Some(Ready) => c.armed && m.a.Some? && Enabled(s, m.a.value) && Fires(s, m.a.value, w)
    case Some(Cancel(x)) =>
      H.Enabled(c, H.Cancel(x))
      && if c.armed then exists t, g :: RunningOn(s, t, g) && m.a == Some(User(FiberOn(t), CancelEvent(w)))
         else m.a == None
    case Some(Resume) =>
      !c.phase.Returned? && m.a.Some? && Enabled(s, m.a.value) && Resumes(s, m.a.value, f)
    case Some(h) => H.Enabled(c, h) && m.a == None
  }

  ghost predicate Possible(s: State, c: H.Call, m: Move) {
    (m.a.Some? ==> Enabled(s, m.a.value)) && (m.h.Some? ==> H.Enabled(c, m.h.value))
  }

  ghost function NextState(s: State, c: H.Call, m: Move): State
    requires Possible(s, c, m)
  {
    if m.a.Some? then Apply(s, m.a.value) else s
  }

  ghost function NextCall(s: State, c: H.Call, m: Move): H.Call
    requires Possible(s, c, m)
  {
    if m.h.Some? then H.Apply(c, m.h.value) else c
  }

  /** A fiber that runs with no wake-up outstanding may hand one out for itself. */
  lemma ArmAllowed(s: State, t: nat, f: FiberId, w: Wait)
    requires Inv(s) && RunningOn(s, t, f) && !Outstanding(s, f) && w !in s.waits
    ensures Enabled(s, User(FiberOn(t), AddEvent(w, RunFiber(f))))
  {
    assert Runs(s, t, f) && CanHandOut(s, f);
    assert forall g: FiberId :: Wakes(RunFiber(f), g) ==> g == f;
  }

  /** A fiber is resumed only when its call is woken: not while it runs, nor while it is parked. */
  lemma ResumedWhenWoken(s: State, c: H.Call, f: FiberId, w: Wait, a: Step)
    requires Inv(s) && Tied(s, c, f, w) && Resumes(s, a, f) && !c.phase.Returned?
    ensures c.phase == H.Woken
  {
    assert Holds(s, InHand(a.t), f);
    if c.phase == H.Parked { assert Holds(s, InWait(w), f); }
  }

  /** Every step of the call is enabled in the reactor, and every step that touches it is enabled for the call. */
  lemma DisciplineMet(s: State, c: H.Call, f: FiberId, w: Wait, m: Move)
    requires Inv(s) && Tied(s, c, f, w) && Follows(s, c, f, w, m)
    ensures Possible(s, c, m)
  {
    match m.h
    case Some(Arm(true)) =>
      var t :| RunningOn(s, t, f) && m.a == Some(User(FiberOn(t), AddEvent(w, RunFiber(f))));
      ArmAllowed(s, t, f, w);
    case Some(Resume) => ResumedWhenWoken(s, c, f, w, m.a.value);
    case _ =>
  }

  // ---- The tie is kept ------------------------------------------------------------------------

  lemma RunningKept(s: State, a: Step, t: nat, f: FiberId)
    requires Enabled(s, a) && RunningOn(s, t, f)
    requires a.Work? && a.t == t ==> !a.op.YieldToHold? && !a.op.YieldToReady? && !a.op.Finish?
    ensures RunningOn(Apply(s, a), t, f)
  {
    if a.User? {
      ThreadsUser(s, a);
    } else if a.t != t {
      RunsHere(s, a, f);
    } else {
      assert a == Work(t, FireWake);
    }
  }

  lemma LiveKept(s: State, c: H.Call, f: FiberId, a: Step)
    requires Enabled(s, a) && OwnPace(s, c, f, a) && Live(s, f) && !c.phase.Returned?
    ensures Live(Apply(s, a), f)
  {
    FiberAfter(s, a, f);
    if !Writes(s, a, f) {
      assert StateIs(s, f, s.fibers[f]);
    } else {
      assert StateIs(Apply(s, a), f, Written(s, a, f));
    }
  }

  /** A queued or taken task of a live fiber stays so until it is started, which resumes the fiber. */
  lemma BacklogKept(s: State, a: Step, f: FiberId)
    requires Enabled(s, a) && Live(s, f) && Backlog(s, RunFiber(f)) > 0 && !Resumes(s, a, f)
    ensures Backlog(Apply(s, a), RunFiber(f)) > 0
  {
    BalanceStep(s, a, RunFiber(f));
    QueuedNatural(Accepted(s, a), RunFiber(f));
  }

  lemma {:induction false} QueuedNatural(es: seq<Entry>, x: Task)
    ensures Queued(es, x) >= 0
    ensures forall i :: 0 <= i < |es| && es[i].task == x ==> Queued(es, x) > 0
  {
    if es != [] { QueuedNatural(es[1..], x); }
  }

  /** A step that neither mints nor resumes leaves no wake-up where there was none. */
  lemma NoneKept(s: State, a: Step, f: FiberId)
    requires Inv(s) && Enabled(s, a) && !Outstanding(s, f) && !Mints(s, a, f)
    ensures !Outstanding(Apply(s, a), f)
  {
    LedgerStep(s, a, f);
  }

  lemma AsideKeeps(s: State, c: H.Call, f: FiberId, w: Wait, a: Step)
    requires Inv(s) && Tied(s, c, f, w) && Aside(s, c, f, w, a)
    ensures Tied(Apply(s, a), c, f, w)
  {
    if InControl(c) {
      NoneKept(s, a, f);
      var t :| RunningOn(s, t, f);
      RunningKept(s, a, t, f);
    } else if c.phase == H.Parked {
      WaitsAfter(s, a, w);
      LiveKept(s, c, f, a);
    } else if c.phase == H.Woken {
      BacklogKept(s, a, f);
      LiveKept(s, c, f, a);
    }
  }

  lemma ArmKeeps(s: State, c: H.Call, f: FiberId, w: Wait, t: nat)
    requires Inv(s) && Tied(s, c, f, w) && H.Enabled(c, H.Arm(true)) && RunningOn(s, t, f) && w !in s.waits
    requires Enabled(s, User(FiberOn(t), AddEvent(w, RunFiber(f))))
    ensures Tied(Apply(s, User(FiberOn(t), AddEvent(w, RunFiber(f)))), H.Apply(c, H.Arm(true)), f, w)
  {
    var a := User(FiberOn(t), AddEvent(w, RunFiber(f)));
    WaitsAfter(s, a, w);
    assert Runs(s, t, f);
    LiveKept(s, c, f, a);
  }

  /** Firing the wait queues the fiber. */
  lemma FireKeeps(s: State, c: H.Call, d: H.Call, f: FiberId, w: Wait, a: Step)
    requires Inv(s) && Tied(s, c, f, w) && c.armed && Enabled(s, a) && Fires(s, a, w)
    requires d.phase == H.Woken && !d.armed
    ensures Tied(Apply(s, a), d, f, w)
  {
    var x := RunFiber(f);
    BalanceStep(s, a, x);
    QueuedNatural(Accepted(s, a), x);
    var i := IndexOf(Triggered(s, a), w);
    assert Accepted(s, a)[i].task == x;
    BacklogNatural(s, x);
    LiveKept(s, c, f, a);
  }

  lemma CancelKeeps(s: State, c: H.Call, f: FiberId, w: Wait, x: nat, a: Step)
    requires Inv(s) && Tied(s, c, f, w) && c.armed && H.Enabled(c, H.Cancel(x))
    requires Enabled(s, a) && a.User? && a.call == CancelEvent(w)
    ensures Tied(Apply(s, a), H.Apply(c, H.Cancel(x)), f, w)
  {
    assert w in Triggered(s, a);
    FireKeeps(s, c, H.Apply(c, H.Cancel(x)), f, w, a);
  }

  lemma BacklogNatural(s: State, x: Task)
    ensures Backlog(s, x) >= 0
  {
    QueuedNatural(s.queue, x);
    HeldNatural(s.threads, x);
  }

  lemma {:induction false} HeldNatural(threads: seq<Thread>, x: Task)
    ensures Held(threads, x) >= 0
  {
    if threads != [] { HeldNatural(threads[1..], x); }
  }

  /** Resuming the fiber uses up its one wake-up. */
  lemma ResumeKeeps(s: State, c: H.Call, f: FiberId, w: Wait, a: Step)
    requires Inv(s) && Tied(s, c, f, w) && c.phase == H.Woken && Enabled(s, a) && Resumes(s, a, f)
    ensures Tied(Apply(s, a), H.Apply(c, H.Resume), f, w)
  {
    LedgerStep(s, a, f);
    assert RunningOn(Apply(s, a), a.t, f);
  }

  /** Steps of the call that the reactor does not see. */
  lemma AloneKeeps(s: State, c: H.Call, f: FiberId, w: Wait, h: H.Step)
    requires Tied(s, c, f, w) && H.Enabled(c, h)
    requires h != H.Arm(true) && !h.Ready? && !h.Resume? && (h.Cancel? ==> !c.armed)
    ensures Tied(s, H.Apply(c, h), f, w)
  {
  }

  lemma MoveKeeps(s: State, c: H.Call, f: FiberId, w: Wait, m: Move)
    requires Inv(s) && Tied(s, c, f, w) && Follows(s, c, f, w, m) && Possible(s, c, m)
    ensures Tied(NextState(s, c, m), NextCall(s, c, m), f, w)
  {
    match m.h
    case None => AsideKeeps(s, c, f, w, m.a.value);
    case Some(Arm(true)) =>
      var t :| RunningOn(s, t, f) && m.a == Some(User(FiberOn(t), AddEvent(w, RunFiber(f))));
      ArmKeeps(s, c, f, w, t);
    case Some(Ready) => FireKeeps(s, c, H.Apply(c, H.Ready), f, w, m.a.value);
    case Some(Cancel(x)) =>
      if c.armed { CancelKeeps(s, c, f, w, x, m.a.value); } else { AloneKeeps(s, c, f, w, m.h.value); }
    case Some(Resume) => ResumeKeeps(s, c, f, w, m.a.value);
    case Some(h) => AloneKeeps(s, c, f, w, h);
  }

  lemma MoveInv(s: State, c: H.Call, m: Move)
    requires Inv(s) && Possible(s, c, m)
    ensures Inv(NextState(s, c, m))
  {
    if m.a.Some? { KeepInv(s, m.a.value); }
  }

  // ---- Whole runs -------------------------------------------------------------------------------

  /** As far as its moves are possible, the run follows do_io. */
  ghost predicate AllFollow(s: State, c: H.Call, f: FiberId, w: Wait, run: seq<Move>)
    decreases |run|
  {
    run == [] ||
    (Follows(s, c, f, w, run[0])
     && (Possible(s, c, run[0]) ==> AllFollow(NextState(s, c, run[0]), NextCall(s, c, run[0]), f, w, run[1..])))
  }

  ghost predicate AllPossible(s: State, c: H.Call, run: seq<Move>)
    decreases |run|
  {
    run == [] ||
    (Possible(s, c, run[0]) && AllPossible(NextState(s, c, run[0]), NextCall(s, c, run[0]), run[1..]))
  }

  /**
   Over any run of a blocking call in the reactor, however the other threads move in between: no step of do_io
   ever breaks the wake-up discipline, and its fiber is never resumed or fired at but when the call waits for it.
   */
  lemma {:induction false} CallsKeepDiscipline(s: State, c: H.Call, f: FiberId, w: Wait, run: seq<Move>)
    requires Inv(s) && Tied(s, c, f, w) && AllFollow(s, c, f, w, run)
    ensures AllPossible(s, c, run)
    decreases |run|
  {
    if run != [] {
      DisciplineMet(s, c, f, w, run[0]);
      MoveInv(s, c, run[0]);
      MoveKeeps(s, c, f, w, run[0]);
      CallsKeepDiscipline(NextState(s, c, run[0]), NextCall(s, c, run[0]), f, w, run[1..]);
    }
  }

}
