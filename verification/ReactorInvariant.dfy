/** What every step of the reactor keeps, and how a step moves each outstanding wake-up. */
module ReactorInvariant {
  import opened Options
  import opened Reactor

  // ---- The invariant ----------------------------------------------------------------------

  predicate CountsAsActive(pc: Pc) {
    pc.Holding? || pc.Running? || pc.Returned?
  }

  predicate CountsAsIdle(pc: Pc) {
    pc.IdleCheck? || pc.IdleExpire? || pc.IdleBatch? || pc.IdleEvents? || pc.IdleLeave?
  }

  function Count(threads: seq<Thread>, p: Pc -> bool): (n: nat)
  {
    if threads == [] then 0 else (if p(threads[0].pc) then 1 else 0) + Count(threads[1..], p)
  }

  /** No two places hold a wake-up for the same fiber. */
  ghost predicate WakeupsUnique(s: State) {
    forall p, q, f: FiberId :: Holds(s, p, f) && Holds(s, q, f) ==> p == q
  }

  /** No fiber is between swapIn and settling on two threads. */
  ghost predicate OneRunner(s: State) {
    forall t: nat, u: nat, f: FiberId :: Runs(s, t, f) && Runs(s, u, f) ==> t == u
  }

  /** A fiber that has yielded as READY, or ended, has no wake-up outstanding. */
  ghost predicate RunnersOk(s: State) {
    forall t: nat, f: FiberId :: Runs(s, t, f) ==>
      && f in s.fibers
      && s.fibers[f] in {EXEC, READY, TERM, EXCEPT}
      && (s.threads[t].pc.Running? ==> s.fibers[f] == EXEC)
      && (s.fibers[f] != EXEC ==> forall p :: !Holds(s, p, f))
      && (Dead(s, f) ==> f !in s.closures)
  }

  /** A fiber in a thread's hand is in nobody's swapIn, and EXEC means some thread runs it. */
  ghost predicate HandsOk(s: State) {
    && (forall t: nat, u: nat, f: FiberId :: InHandOf(s, t, f) ==> !Runs(s, u, f))
    && (forall f: FiberId :: StateIs(s, f, EXEC) ==> exists t: nat :: Runs(s, t, f))
  }

  /** Spare callback fibers are reset and referenced from nowhere else. */
  ghost predicate PocketsOk(s: State) {
    && (forall t: nat, f: FiberId :: Pockets(s, t, f) ==>
          && StateIs(s, f, INIT) && f !in s.closures
          && (forall p :: !Holds(s, p, f)) && (forall u: nat :: !Runs(s, u, f)))
    && (forall t: nat, u: nat, f: FiberId :: Pockets(s, t, f) && Pockets(s, u, f) ==> t == u)
  }

  /** A timer that fires again carries no wake-up. */
  predicate WakesOnce(timer: Timer) {
    timer.recurring ==> timer.cb.Other?
  }

  /** Wake-ups name existing fibers; a recurring timer never carries one. */
  ghost predicate Known(s: State) {
    && (forall p, f: FiberId :: Holds(s, p, f) ==> f in s.fibers)
    && (forall g :: g in s.closures ==> g in s.fibers)
    && (forall k :: k in s.timers ==> WakesOnce(s.timers[k]))
  }

  ghost predicate CountersExact(s: State) {
    && s.active == Count(s.threads, CountsAsActive)
    && s.idle == Count(s.threads, CountsAsIdle)
    && s.pending == |s.waits|
  }

  ghost predicate Inv(s: State) {
    && WakeupsUnique(s) && OneRunner(s) && RunnersOk(s) && HandsOk(s) && PocketsOk(s)
    && Known(s) && CountersExact(s)
  }

  // ---- How a step moves wake-ups ------------------------------------------------------------

  function IndexOf<T(==)>(xs: seq<T>, x: T): (i: nat)
    requires x in xs
    ensures i < |xs| && xs[i] == x
  {
    if xs[0] == x then 0 else 1 + IndexOf(xs[1..], x)
  }

  // Each kind of step has a map forward and a map back over the places.

  function ForwardTrigger(s: State, ws: seq<Wait>, p: Place): Place {
    if p.InWait? && p.w in ws then InQueue(|s.queue| + IndexOf(ws, p.w)) else p
  }

  function BackTrigger(s: State, ws: seq<Wait>, q: Place): Place {
    if q.InQueue? && |s.queue| <= q.i < |s.queue| + |ws| then InWait(ws[q.i - |s.queue|]) else q
  }

  function ForwardPick(s: State, t: nat, p: Place): Place {
    var i := FirstEligible(s.queue, s.fibers, t);
    if p == InQueue(i) then InHand(t) else if p.InQueue? && i < p.i then InQueue(p.i - 1) else p
  }

  function BackPick(s: State, t: nat, q: Place): Place {
    var i := FirstEligible(s.queue, s.fibers, t);
    if i == |s.queue| then q
    else if q == InHand(t) then InQueue(i)
    else if q.InQueue? && i <= q.i then InQueue(q.i + 1)
    else q
  }

  function ForwardStart(s: State, t: nat, g: FiberId, p: Place): Place
    requires ThreadAt(s, t) && s.threads[t].pc.Holding?
  {
    if p != InHand(t) then p else if s.threads[t].pc.task.RunFiber? then Gone else InClosure(g)
  }

  function BackStart(s: State, t: nat, g: FiberId, q: Place): Place
    requires ThreadAt(s, t) && s.threads[t].pc.Holding?
  {
    if q == InClosure(g) && s.threads[t].pc.task.RunCallback? then InHand(t) else q
  }

  function ForwardExpire(t: nat, ks: seq<nat>, p: Place): Place {
    if p.InTimer? && p.k in ks then InBatch(t, IndexOf(ks, p.k)) else p
  }

  function BackExpire(t: nat, ks: seq<nat>, q: Place): Place {
    if q.InBatch? && q.t == t && q.i < |ks| then InTimer(ks[q.i]) else q
  }

  function ForwardBatch(s: State, t: nat, p: Place): Place {
    if p.InBatch? && p.t == t then InQueue(|s.queue| + p.i) else p
  }

  function BackBatch(s: State, t: nat, q: Place): Place {
    if q.InQueue? && |s.queue| <= q.i then InBatch(t, q.i - |s.queue|) else q
  }

  /** Where the wake-up at p is after the step; Gone when the step consumes it. */
  ghost function Forward(s: State, a: Step, p: Place): Place
    requires Enabled(s, a)
  {
    match a
    case User(_, DelEvent(w)) => if p == InWait(w) then Gone else p
    case User(_, CancelTimer(k)) => if p == InTimer(k) then Gone else p
    case User(_, _) => ForwardTrigger(s, Triggered(s, a), p)
    case Work(t, Pick) => ForwardPick(s, t, p)
    case Work(t, Start(g)) => ForwardStart(s, t, g, p)
    case Work(t, FireWake) => if p == InClosure(s.threads[t].pc.fiber) then InQueue(|s.queue|) else p
    case Work(t, Finish(_)) => if p == InClosure(s.threads[t].pc.fiber) then Gone else p
    case Work(_, _) => p
    case Idle(t, Expire(ks)) => ForwardExpire(t, ks, p)
    case Idle(t, ScheduleBatch) => ForwardBatch(s, t, p)
    case Idle(_, _) => ForwardTrigger(s, Triggered(s, a), p)
  }

  /** Where the wake-up that is at q after the step was before it. */
  ghost function Back(s: State, a: Step, q: Place): Place
    requires Enabled(s, a)
  {
    match a
    case User(_, _) => BackTrigger(s, Triggered(s, a), q)
    case Work(t, Pick) => BackPick(s, t, q)
    case Work(t, Start(g)) => BackStart(s, t, g, q)
    case Work(t, FireWake) => if q == InQueue(|s.queue|) then InClosure(s.threads[t].pc.fiber) else q
    case Work(_, _) => q
    case Idle(t, Expire(ks)) => BackExpire(t, ks, q)
    case Idle(t, ScheduleBatch) => BackBatch(s, t, q)
    case Idle(_, _) => BackTrigger(s, Triggered(s, a), q)
  }

  /** The step creates a wake-up for f at p. */
  ghost predicate Born(s: State, a: Step, p: Place, f: FiberId)
    requires Enabled(s, a)
  {
    match a
    case User(_, Schedule(task, _)) => p == InQueue(|s.queue|) && Wakes(task, f)
    case User(_, AddEvent(w, task)) => p == InWait(w) && Wakes(task, f)
    case User(_, AddTimer(k, timer)) => p == InTimer(k) && timer.cb == Wake(f)
    case User(_, _) => false
    case Work(t, Settle) =>
      p == InQueue(|s.queue|) && f == s.threads[t].pc.fiber && StateIs(s, f, READY)
    case Work(_, _) => false
    case Idle(_, _) => false
  }

  /** One wake-up moves forward as Forward says; one found afterwards came from where Back says. */
  ghost predicate Carries(s: State, a: Step, p: Place, f: FiberId)
    requires Enabled(s, a)
  {
    && (Holds(s, p, f) && !Forward(s, a, p).Gone? ==> Holds(Apply(s, a), Forward(s, a, p), f))
    && (Holds(Apply(s, a), p, f) && !Born(s, a, p, f) ==>
          Holds(s, Back(s, a, p), f) && Forward(s, a, Back(s, a, p)) == p)
  }

  lemma IndexOfDistinct<T>(xs: seq<T>, i: nat)
    requires Distinct(xs) && i < |xs|
    ensures IndexOf(xs, xs[i]) == i
  {
  }

  lemma TriggerCarries(s: State, ws: seq<Wait>, p: Place, f: FiberId)
    requires (forall w :: w in ws ==> w in s.waits) && Holds(s, p, f)
    ensures Holds(Trigger(s, ws), ForwardTrigger(s, ws, p), f)
  {
  }

  lemma TriggerCarriesBack(s: State, ws: seq<Wait>, q: Place, f: FiberId)
    requires Distinct(ws) && (forall w :: w in ws ==> w in s.waits) && Holds(Trigger(s, ws), q, f)
    ensures Holds(s, BackTrigger(s, ws, q), f)
    ensures ForwardTrigger(s, ws, BackTrigger(s, ws, q)) == q
  {
    if q.InQueue? && |s.queue| <= q.i < |s.queue| + |ws| {
      IndexOfDistinct(ws, q.i - |s.queue|);
      assert ws[q.i - |s.queue|] in ws;
    }
  }

  lemma CarriesTrigger(s: State, a: Step, p: Place, f: FiberId)
    requires Enabled(s, a) && Apply(s, a) == Trigger(s, Triggered(s, a))
    requires (a.User? && (a.call.CancelEvent? || a.call.CancelAll?)) || (a.Idle? && a.iop.Readiness?)
    ensures Carries(s, a, p, f)
  {
    var ws := Triggered(s, a);
    if Holds(s, p, f) { TriggerCarries(s, ws, p, f); }
    if Holds(Trigger(s, ws), p, f) { TriggerCarriesBack(s, ws, p, f); }
  }

  lemma CarriesTimer(s: State, a: Step, p: Place, f: FiberId)
    requires Enabled(s, a) && a.User? && (a.call.AddTimer? || a.call.CancelTimer?)
    ensures Carries(s, a, p, f)
  {
  }

  lemma CarriesWait(s: State, a: Step, p: Place, f: FiberId)
    requires Enabled(s, a) && a.User? && (a.call.AddEvent? || a.call.DelEvent?)
    ensures Carries(s, a, p, f)
  {
  }

  lemma CarriesCall(s: State, a: Step, p: Place, f: FiberId)
    requires Enabled(s, a) && a.User?
    requires a.call.NewFiber? || a.call.Schedule? || a.call.RequestStop?
    ensures Carries(s, a, p, f)
  {
  }

  /** Only thread t differs between the two thread tables. */
  predicate OnlyThread(s: State, s2: State, t: nat) {
    && |s2.threads| == |s.threads|
    && forall u :: 0 <= u < |s.threads| && u != t ==> s2.threads[u] == s.threads[u]
  }

  lemma PickCarries(s: State, t: nat, p: Place, f: FiberId)
    requires ThreadAt(s, t) && s.threads[t].pc.Scanning? && Holds(s, p, f)
    ensures Holds(DoPick(s, t), ForwardPick(s, t, p), f)
  {
    var i := FirstEligible(s.queue, s.fibers, t);
    if i < |s.queue| {
      var s2 := DoPick(s, t);
      assert s2.queue == s.queue[..i] + s.queue[i + 1..];
      assert s2.waits == s.waits && s2.timers == s.timers && s2.closures == s.closures;
      assert OnlyThread(s, s2, t);
    }
  }

  lemma PickCarriesBack(s: State, t: nat, q: Place, f: FiberId)
    requires ThreadAt(s, t) && s.threads[t].pc.Scanning? && Holds(DoPick(s, t), q, f)
    ensures Holds(s, BackPick(s, t, q), f) && ForwardPick(s, t, BackPick(s, t, q)) == q
  {
    var i := FirstEligible(s.queue, s.fibers, t);
    if i < |s.queue| {
      var s2 := DoPick(s, t);
      assert s2.queue == s.queue[..i] + s.queue[i + 1..];
      assert s2.waits == s.waits && s2.timers == s.timers && s2.closures == s.closures;
      assert OnlyThread(s, s2, t);
    }
  }

  /** A thread that loses its task keeps every other wake-up in place. */
  lemma HandEmptied(s: State, s2: State, t: nat, p: Place, f: FiberId)
    requires ThreadAt(s, t) && OnlyThread(s, s2, t)
    requires s2.queue == s.queue && s2.waits == s.waits && s2.timers == s.timers
    requires s2.closures == s.closures
    requires !s.threads[t].pc.IdleBatch?
    requires !s2.threads[t].pc.Holding? && !s2.threads[t].pc.IdleBatch?
    ensures Holds(s2, p, f) <==> Holds(s, p, f) && p != InHand(t)
  {
  }

  lemma StartFiberCarries(s: State, t: nat, h: FiberId, p: Place, f: FiberId)
    requires ThreadAt(s, t) && s.threads[t].pc == Holding(RunFiber(h))
    ensures Holds(DoStartFiber(s, t, h), p, f) <==> Holds(s, p, f) && p != InHand(t)
  {
    HandEmptied(s, DoStartFiber(s, t, h), t, p, f);
  }

  lemma StartCallbackCarries(s: State, t: nat, g: FiberId, cb: Callback, p: Place, f: FiberId)
    requires ThreadAt(s, t) && s.threads[t].pc == Holding(RunCallback(cb)) && g !in s.closures
    ensures Holds(DoStartCallback(s, t, g, cb), p, f) <==>
            (if p == InClosure(g) then cb == Wake(f) else Holds(s, p, f) && p != InHand(t))
  {
    var s2 := DoStartCallback(s, t, g, cb);
    HandEmptied(s, s2.(closures := s.closures), t, p, f);
  }

  /** The fiber made for a callback owes no wake-up yet. */
  lemma CallbackFiberFresh(s: State, t: nat, g: FiberId)
    requires Known(s) && PocketsOk(s)
    requires ThreadAt(s, t) && WorkOk(s, t, Start(g)) && s.threads[t].pc.task.RunCallback?
    ensures g !in s.closures && (forall p :: !Holds(s, p, g)) && (g in s.fibers ==> s.fibers[g] == INIT)
  {
    if s.threads[t].pocket.Some? {
      assert Pockets(s, t, g);
    }
  }

  lemma CarriesStart(s: State, t: nat, g: FiberId, p: Place, f: FiberId)
    requires Enabled(s, Work(t, Start(g))) && Known(s) && PocketsOk(s)
    ensures Carries(s, Work(t, Start(g)), p, f)
  {
    match s.threads[t].pc.task
    case RunFiber(h) => StartFiberCarries(s, t, h, p, f);
    case RunCallback(cb) =>
      CallbackFiberFresh(s, t, g);
      StartCallbackCarries(s, t, g, cb, p, f);
  }

  lemma CarriesPick(s: State, t: nat, p: Place, f: FiberId)
    requires Enabled(s, Work(t, Pick))
    ensures Carries(s, Work(t, Pick), p, f)
  {
    if Holds(s, p, f) { PickCarries(s, t, p, f); }
    if Holds(DoPick(s, t), p, f) { PickCarriesBack(s, t, p, f); }
  }

  lemma CarriesSettle(s: State, t: nat, p: Place, f: FiberId)
    requires Enabled(s, Work(t, Settle))
    ensures Carries(s, Work(t, Settle), p, f)
  {
    HandEmptied(s, DoSettle(s, t).(queue := s.queue), t, p, f);
  }

  lemma CarriesFireWake(s: State, t: nat, p: Place, f: FiberId)
    requires Enabled(s, Work(t, FireWake))
    ensures Carries(s, Work(t, FireWake), p, f)
  {
  }

  lemma CarriesFinish(s: State, t: nat, threw: bool, p: Place, f: FiberId)
    requires Enabled(s, Work(t, Finish(threw)))
    ensures Carries(s, Work(t, Finish(threw)), p, f)
  {
    HandEmptied(s, Apply(s, Work(t, Finish(threw))).(closures := s.closures), t, p, f);
  }

  lemma CarriesYield(s: State, a: Step, p: Place, f: FiberId)
    requires Enabled(s, a) && a.Work? && (a.op.YieldToHold? || a.op.YieldToReady? || a.op.Leave?)
    ensures Carries(s, a, p, f)
  {
    HandEmptied(s, Apply(s, a), a.t, p, f);
  }

  lemma ExpireCarries(s: State, t: nat, ks: seq<nat>, p: Place, f: FiberId)
    requires ThreadAt(s, t) && IdleOk(s, t, Expire(ks)) && Known(s) && Holds(s, p, f)
    ensures Holds(DoExpire(s, t, ks), ForwardExpire(t, ks, p), f)
  {
  }

  lemma ExpireCarriesBack(s: State, t: nat, ks: seq<nat>, q: Place, f: FiberId)
    requires ThreadAt(s, t) && IdleOk(s, t, Expire(ks)) && Known(s)
    requires Holds(DoExpire(s, t, ks), q, f)
    ensures Holds(s, BackExpire(t, ks, q), f) && ForwardExpire(t, ks, BackExpire(t, ks, q)) == q
  {
    if q.InBatch? && q.t == t && q.i < |ks| {
      IndexOfDistinct(ks, q.i);
      assert ks[q.i] in ks;
    }
  }

  lemma BatchCarries(s: State, t: nat, p: Place, f: FiberId)
    requires ThreadAt(s, t) && IdleOk(s, t, ScheduleBatch) && Holds(s, p, f)
    ensures Holds(DoScheduleBatch(s, t), ForwardBatch(s, t, p), f)
  {
  }

  lemma BatchCarriesBack(s: State, t: nat, q: Place, f: FiberId)
    requires ThreadAt(s, t) && IdleOk(s, t, ScheduleBatch) && Holds(DoScheduleBatch(s, t), q, f)
    ensures Holds(s, BackBatch(s, t, q), f) && ForwardBatch(s, t, BackBatch(s, t, q)) == q
  {
  }

  lemma CarriesExpire(s: State, t: nat, ks: seq<nat>, p: Place, f: FiberId)
    requires Enabled(s, Idle(t, Expire(ks))) && Known(s)
    ensures Carries(s, Idle(t, Expire(ks)), p, f)
  {
    if Holds(s, p, f) { ExpireCarries(s, t, ks, p, f); }
    if Holds(DoExpire(s, t, ks), p, f) { ExpireCarriesBack(s, t, ks, p, f); }
  }

  lemma CarriesBatch(s: State, t: nat, p: Place, f: FiberId)
    requires Enabled(s, Idle(t, ScheduleBatch))
    ensures Carries(s, Idle(t, ScheduleBatch), p, f)
  {
    if Holds(s, p, f) { BatchCarries(s, t, p, f); }
    if Holds(DoScheduleBatch(s, t), p, f) { BatchCarriesBack(s, t, p, f); }
  }

  lemma CarriesIdle(s: State, a: Step, p: Place, f: FiberId)
    requires Enabled(s, a) && a.Idle?
    requires a.iop.EnterIdle? || a.iop.CheckStopping? || a.iop.SwapOutIdle? || a.iop.LeaveIdle?
    ensures Carries(s, a, p, f)
  {
    HandEmptied(s, Apply(s, a), a.t, p, f);
  }

  /** Every step moves wake-ups as Forward, Back and Born say. */
  lemma AllCarried(s: State, a: Step, p: Place, f: FiberId)
    requires Inv(s) && Enabled(s, a)
    ensures Carries(s, a, p, f)
  {
    match a
    case User(_, AddTimer(_, _)) => CarriesTimer(s, a, p, f);
    case User(_, CancelTimer(_)) => CarriesTimer(s, a, p, f);
    case User(_, AddEvent(_, _)) => CarriesWait(s, a, p, f);
    case User(_, DelEvent(_)) => CarriesWait(s, a, p, f);
    case User(_, CancelEvent(_)) => CarriesTrigger(s, a, p, f);
    case User(_, CancelAll(_)) => CarriesTrigger(s, a, p, f);
    case User(_, _) => CarriesCall(s, a, p, f);
    case Work(t, Pick) => CarriesPick(s, t, p, f);
    case Work(t, Start(g)) => CarriesStart(s, t, g, p, f);
    case Work(t, FireWake) => CarriesFireWake(s, t, p, f);
    case Work(t, Finish(threw)) => CarriesFinish(s, t, threw, p, f);
    case Work(t, Settle) => CarriesSettle(s, t, p, f);
    case Work(_, _) => CarriesYield(s, a, p, f);
    case Idle(t, Expire(ks)) => CarriesExpire(s, t, ks, p, f);
    case Idle(t, ScheduleBatch) => CarriesBatch(s, t, p, f);
    case Idle(_, Readiness(_, _)) => CarriesTrigger(s, a, p, f);
    case Idle(_, _) => CarriesIdle(s, a, p, f);
  }

  /** The step swaps fiber f in on thread t. */
  predicate Starts(s: State, a: Step, t: nat, f: FiberId) {
    && a.Work? && a.op.Start? && a.t == t && ThreadAt(s, t) && s.threads[t].pc.Holding?
    && match s.threads[t].pc.task
       case RunFiber(h) => h == f && !Dead(s, f)
       case RunCallback(_) => a.op.g == f
  }

  /** What a step of thread t does to fiber f being run there. */
  ghost predicate RunsLocal(s: State, a: Step, t: nat, f: FiberId)
    requires Enabled(s, a)
  {
    && OnlyThread(s, Apply(s, a), t)
    && (Runs(Apply(s, a), t, f) <==> Starts(s, a, t, f) || (Runs(s, t, f) && a != Work(t, Settle)))
    && (Runs(Apply(s, a), t, f) && Apply(s, a).threads[t].pc.Running? ==>
          Starts(s, a, t, f) || (s.threads[t].pc.Running? && !Writes(s, a, f)))
  }

  lemma RunsPick(s: State, t: nat, f: FiberId)
    requires Enabled(s, Work(t, Pick))
    ensures RunsLocal(s, Work(t, Pick), t, f)
  {
  }

  lemma RunsStart(s: State, t: nat, g: FiberId, f: FiberId)
    requires Enabled(s, Work(t, Start(g)))
    ensures RunsLocal(s, Work(t, Start(g)), t, f)
  {
  }

  lemma RunsFireWake(s: State, t: nat, f: FiberId)
    requires Enabled(s, Work(t, FireWake))
    ensures RunsLocal(s, Work(t, FireWake), t, f)
  {
  }

  lemma RunsSettle(s: State, t: nat, f: FiberId)
    requires Enabled(s, Work(t, Settle))
    ensures RunsLocal(s, Work(t, Settle), t, f)
  {
  }

  lemma RunsYield(s: State, a: Step, f: FiberId)
    requires Enabled(s, a) && a.Work? && (a.op.YieldToReady? || a.op.Finish?)
    ensures RunsLocal(s, a, a.t, f)
  {
  }

  lemma RunsLeave(s: State, a: Step, f: FiberId)
    requires Enabled(s, a) && a.Work? && (a.op.YieldToHold? || a.op.Leave?)
    ensures RunsLocal(s, a, a.t, f)
  {
  }

  lemma RunsIdle(s: State, a: Step, f: FiberId)
    requires Enabled(s, a) && a.Idle?
    requires a.iop.EnterIdle? || a.iop.CheckStopping? || a.iop.SwapOutIdle? || a.iop.LeaveIdle?
    ensures RunsLocal(s, a, a.t, f)
  {
  }

  lemma RunsDispatch(s: State, a: Step, f: FiberId)
    requires Enabled(s, a) && a.Idle?
    requires a.iop.Expire? || a.iop.ScheduleBatch? || a.iop.Readiness?
    ensures RunsLocal(s, a, a.t, f)
  {
  }

  lemma RunsHere(s: State, a: Step, f: FiberId)
    requires Enabled(s, a) && !a.User?
    ensures RunsLocal(s, a, a.t, f)
  {
    match a
    case Work(t, Pick) => RunsPick(s, t, f);
    case Work(t, Start(g)) => RunsStart(s, t, g, f);
    case Work(t, FireWake) => RunsFireWake(s, t, f);
    case Work(t, Settle) => RunsSettle(s, t, f);
    case Work(_, YieldToReady) => RunsYield(s, a, f);
    case Work(_, Finish(_)) => RunsYield(s, a, f);
    case Work(_, _) => RunsLeave(s, a, f);
    case Idle(_, Expire(_)) => RunsDispatch(s, a, f);
    case Idle(_, ScheduleBatch) => RunsDispatch(s, a, f);
    case Idle(_, Readiness(_, _)) => RunsDispatch(s, a, f);
    case Idle(_, _) => RunsIdle(s, a, f);
  }

  lemma UserKeeps(s: State, op: UserOp)
    requires UserOk(s, op)
    ensures DoUser(s, op).threads == s.threads && DoUser(s, op).closures == s.closures
  {
    match op
    case CancelEvent(w) =>
    case CancelAll(fd) =>
    case _ =>
  }

  lemma ThreadsUser(s: State, a: Step)
    requires Enabled(s, a) && a.User?
    ensures Apply(s, a).threads == s.threads
  {
    UserKeeps(s, a.call);
  }

  lemma RunsAfter(s: State, a: Step, t: nat, f: FiberId)
    requires Enabled(s, a)
    ensures Runs(Apply(s, a), t, f) <==>
            Starts(s, a, t, f) || (Runs(s, t, f) && a != Work(t, Settle))
  {
    if a.User? { ThreadsUser(s, a); } else { RunsHere(s, a, f); }
  }

  // ---- What a step does to fiber states -------------------------------------------------------

  /** The step writes fiber f's state. */
  predicate Writes(s: State, a: Step, f: FiberId) {
    match a
    case User(_, op) => op == NewFiber(f)
    case Work(t, op) =>
      && ThreadAt(s, t)
      && (match op
          case Start(_) => Starts(s, a, t, f)
          case YieldToReady => s.threads[t].pc.Running? && s.threads[t].pc.fiber == f
          case Finish(_) => s.threads[t].pc.Running? && s.threads[t].pc.fiber == f
          case Settle => s.threads[t].pc.Settling? && s.threads[t].pc.fiber == f
          case _ => false)
    case Idle(_, _) => false
  }

  /** The state it writes. */
  function Written(s: State, a: Step, f: FiberId): FiberState
    requires Writes(s, a, f)
  {
    match a
    case User(_, _) => INIT
    case Work(_, Start(_)) => EXEC
    case Work(_, YieldToReady) => READY
    case Work(_, Finish(threw)) => if threw then EXCEPT else TERM
    case Work(t, Settle) =>
      if Dead(s, f) then (if s.threads[t].pc.fromCb then INIT else s.fibers[f])
      else if StateIs(s, f, READY) then READY
      else HOLD
  }

  lemma FiberAfterUser(s: State, a: Step, f: FiberId)
    requires Enabled(s, a) && a.User?
    ensures Writes(s, a, f) ==> StateIs(Apply(s, a), f, INIT)
    ensures !Writes(s, a, f) ==> forall st :: StateIs(Apply(s, a), f, st) <==> StateIs(s, f, st)
  {
  }

  lemma FiberAfterWork(s: State, a: Step, f: FiberId)
    requires Enabled(s, a) && a.Work? && (a.op.Start? || a.op.Settle?)
    ensures Writes(s, a, f) ==> StateIs(Apply(s, a), f, Written(s, a, f))
    ensures !Writes(s, a, f) ==> forall st :: StateIs(Apply(s, a), f, st) <==> StateIs(s, f, st)
  {
  }

  lemma FiberAfterYield(s: State, a: Step, f: FiberId)
    requires Enabled(s, a) && a.Work? && !a.op.Start? && !a.op.Settle?
    ensures Writes(s, a, f) ==> StateIs(Apply(s, a), f, Written(s, a, f))
    ensures !Writes(s, a, f) ==> forall st :: StateIs(Apply(s, a), f, st) <==> StateIs(s, f, st)
  {
  }

  lemma FibersIdle(s: State, a: Step)
    requires Enabled(s, a) && a.Idle?
    requires a.iop.EnterIdle? || a.iop.CheckStopping? || a.iop.SwapOutIdle? || a.iop.LeaveIdle?
    ensures Apply(s, a).fibers == s.fibers
  {
  }

  lemma FibersDispatch(s: State, a: Step)
    requires Enabled(s, a) && a.Idle?
    requires a.iop.Expire? || a.iop.ScheduleBatch? || a.iop.Readiness?
    ensures Apply(s, a).fibers == s.fibers
  {
  }

  lemma FiberAfter(s: State, a: Step, f: FiberId)
    requires Enabled(s, a)
    ensures Writes(s, a, f) ==> StateIs(Apply(s, a), f, Written(s, a, f))
    ensures !Writes(s, a, f) ==> forall st :: StateIs(Apply(s, a), f, st) <==> StateIs(s, f, st)
  {
    match a
    case User(_, _) => FiberAfterUser(s, a, f);
    case Work(_, Start(_)) => FiberAfterWork(s, a, f);
    case Work(_, Settle) => FiberAfterWork(s, a, f);
    case Work(_, _) => FiberAfterYield(s, a, f);
    case Idle(_, Expire(_)) => FibersDispatch(s, a);
    case Idle(_, ScheduleBatch) => FibersDispatch(s, a);
    case Idle(_, Readiness(_, _)) => FibersDispatch(s, a);
    case Idle(_, _) => FibersIdle(s, a);
  }

  // ---- What a step does to hands, spare fibers and closures ------------------------------------

  predicate InHandOf(s: State, t: nat, f: FiberId) {
    ThreadAt(s, t) && s.threads[t].pc == Holding(RunFiber(f))
  }

  predicate Picks(s: State, a: Step, t: nat, f: FiberId) {
    var i := FirstEligible(s.queue, s.fibers, t);
    a == Work(t, Pick) && i < |s.queue| && s.queue[i].task == RunFiber(f)
  }

  predicate Recycles(s: State, a: Step, t: nat, f: FiberId) {
    a == Work(t, Settle) && ThreadAt(s, t) && s.threads[t].pc == Settling(f, true) && Dead(s, f)
  }

  ghost predicate Local(s: State, a: Step, t: nat, f: FiberId)
    requires Enabled(s, a)
  {
    && (InHandOf(Apply(s, a), t, f) ==> InHandOf(s, t, f) || Picks(s, a, t, f))
    && (Pockets(Apply(s, a), t, f) ==> Pockets(s, t, f) || Recycles(s, a, t, f))
    && (Starts(s, a, t, f) ==> !Pockets(Apply(s, a), t, f) || InHandOf(s, t, f))
    && (f in Apply(s, a).closures ==>
          (f in s.closures || (a.Work? && Starts(s, a, a.t, f)))
          && !(a.Work? && a.op.Finish? && s.threads[a.t].pc.fiber == f))
  }

  lemma LocalUser(s: State, a: Step, t: nat, f: FiberId)
    requires Enabled(s, a) && a.User?
    ensures Local(s, a, t, f)
  {
    UserKeeps(s, a.call);
  }

  lemma PickParts(s: State, t: nat)
    requires ThreadAt(s, t) && s.threads[t].pc.Scanning?
    ensures var s2, i := DoPick(s, t), FirstEligible(s.queue, s.fibers, t);
      && OnlyThread(s, s2, t) && s2.closures == s.closures && s2.threads[t].pocket == s.threads[t].pocket
      && s2.threads[t].pc == if i < |s.queue| then Holding(s.queue[i].task) else NoTask
  {
  }

  lemma LocalPick(s: State, a: Step, t: nat, f: FiberId)
    requires Enabled(s, a) && a.Work? && a.op.Pick?
    ensures Local(s, a, t, f)
  {
    PickParts(s, a.t);
  }

  lemma StartParts(s: State, t: nat, g: FiberId)
    requires ThreadAt(s, t) && s.threads[t].pc.Holding?
    ensures var s2 := DoStart(s, t, g);
      && OnlyThread(s, s2, t) && !s2.threads[t].pc.Holding?
      && (forall f :: f in s2.closures ==> f in s.closures || (s.threads[t].pc.task.RunCallback? && f == g))
      && s2.threads[t].pocket == if s.threads[t].pc.task.RunFiber? then s.threads[t].pocket else None
  {
  }

  lemma LocalStart(s: State, a: Step, t: nat, f: FiberId)
    requires Enabled(s, a) && a.Work? && a.op.Start?
    ensures Local(s, a, t, f)
  {
    StartParts(s, a.t, a.op.g);
  }

  lemma LocalSettle(s: State, a: Step, t: nat, f: FiberId)
    requires Enabled(s, a) && a.Work? && a.op.Settle?
    ensures Local(s, a, t, f)
  {
  }

  lemma LocalYield(s: State, a: Step, t: nat, f: FiberId)
    requires Enabled(s, a) && a.Work? && (a.op.YieldToReady? || a.op.Finish?)
    ensures Local(s, a, t, f)
  {
  }

  lemma LocalLeave(s: State, a: Step, t: nat, f: FiberId)
    requires Enabled(s, a) && a.Work? && (a.op.YieldToHold? || a.op.Leave? || a.op.FireWake?)
    ensures Local(s, a, t, f)
  {
  }

  lemma LocalIdle(s: State, a: Step, t: nat, f: FiberId)
    requires Enabled(s, a) && a.Idle?
    requires a.iop.EnterIdle? || a.iop.CheckStopping? || a.iop.SwapOutIdle? || a.iop.LeaveIdle?
    ensures Local(s, a, t, f)
  {
  }

  lemma LocalDispatch(s: State, a: Step, t: nat, f: FiberId)
    requires Enabled(s, a) && a.Idle?
    requires a.iop.Expire? || a.iop.ScheduleBatch? || a.iop.Readiness?
    ensures Local(s, a, t, f)
  {
  }

  lemma AllLocal(s: State, a: Step, t: nat, f: FiberId)
    requires Enabled(s, a)
    ensures Local(s, a, t, f)
  {
    match a
    case User(_, _) => LocalUser(s, a, t, f);
    case Work(_, Pick) => LocalPick(s, a, t, f);
    case Work(_, Start(_)) => LocalStart(s, a, t, f);
    case Work(_, Settle) => LocalSettle(s, a, t, f);
    case Work(_, YieldToReady) => LocalYield(s, a, t, f);
    case Work(_, Finish(_)) => LocalYield(s, a, t, f);
    case Work(_, _) => LocalLeave(s, a, t, f);
    case Idle(_, Expire(_)) => LocalDispatch(s, a, t, f);
    case Idle(_, ScheduleBatch) => LocalDispatch(s, a, t, f);
    case Idle(_, Readiness(_, _)) => LocalDispatch(s, a, t, f);
    case Idle(_, _) => LocalIdle(s, a, t, f);
  }

  // ---- The invariant is kept ------------------------------------------------------------------

  /** A wake-up is created only for a fiber that had none, and never for one in a thread's hands. */
  lemma BornFresh(s: State, a: Step, p: Place, f: FiberId)
    requires Inv(s) && Enabled(s, a) && Born(s, a, p, f)
    ensures f in s.fibers && forall q :: !Holds(s, q, f)
    ensures forall t: nat :: Runs(s, t, f) ==> s.fibers[f] == EXEC || a == Work(t, Settle)
    ensures forall t: nat :: !Pockets(s, t, f)
  {
    match a
    case User(_, Schedule(task, _)) => assert Wakes(task, f);
    case User(_, AddEvent(_, task)) => assert Wakes(task, f);
    case User(_, AddTimer(_, timer)) => assert Wakes(RunCallback(timer.cb), f);
    case Work(t, Settle) => assert Runs(s, t, f) && StateIs(s, f, READY);
  }

  /** After a step f is woken from at most one place. */
  lemma KeepWakeupsUnique(s: State, a: Step, p: Place, q: Place, f: FiberId)
    requires Inv(s) && Enabled(s, a)
    requires Holds(Apply(s, a), p, f) && Holds(Apply(s, a), q, f)
    ensures p == q
  {
    AllCarried(s, a, p, f);
    AllCarried(s, a, q, f);
    if Born(s, a, p, f) {
      BornFresh(s, a, p, f);
    } else if Born(s, a, q, f) {
      BornFresh(s, a, q, f);
    } else {
      assert Holds(s, Back(s, a, p), f) && Holds(s, Back(s, a, q), f);
    }
  }

  /** A fiber being swapped in was in nobody's hands. */
  lemma StartsFree(s: State, a: Step, t: nat, f: FiberId)
    requires Inv(s) && Enabled(s, a) && Starts(s, a, t, f)
    ensures forall u: nat :: !Runs(s, u, f)
    ensures f in s.fibers ==> s.fibers[f] != EXEC
  {
    if s.threads[t].pc.task.RunFiber? {
      assert InHandOf(s, t, f);
    } else if s.threads[t].pocket.Some? {
      assert Pockets(s, t, f);
    }
    assert StateIs(s, f, EXEC) ==> exists u: nat :: Runs(s, u, f);
  }

  lemma KeepOneRunner(s: State, a: Step, t: nat, u: nat, f: FiberId)
    requires Inv(s) && Enabled(s, a)
    requires Runs(Apply(s, a), t, f) && Runs(Apply(s, a), u, f)
    ensures t == u
  {
    RunsAfter(s, a, t, f);
    RunsAfter(s, a, u, f);
    if Starts(s, a, t, f) || Starts(s, a, u, f) {
      StartsFree(s, a, a.t, f);
    }
  }

  /** After the step no wake-up for f is outstanding, if none was and none is created. */
  lemma StaysUnwoken(s: State, a: Step, f: FiberId)
    requires Inv(s) && Enabled(s, a)
    requires forall p :: !Holds(s, p, f)
    requires forall p :: !Born(s, a, p, f)
    ensures forall p :: !Holds(Apply(s, a), p, f)
  {
    forall p | Holds(Apply(s, a), p, f) ensures false { AllCarried(s, a, p, f); }
  }

  /** A step writes the state of a fiber in a thread's hands only on that thread. */
  lemma WritesHere(s: State, a: Step, t: nat, f: FiberId)
    requires Inv(s) && Enabled(s, a) && Writes(s, a, f) && Runs(s, t, f)
    ensures a.Work? && a.t == t && !a.op.Start?
  {
    if a.Work? && a.op.Start? {
      StartsFree(s, a, a.t, f);
    } else if a.Work? {
      assert Runs(s, a.t, f);
    }
  }

  lemma EndedUnwoken(s: State, a: Step, t: nat, f: FiberId)
    requires Inv(s) && Enabled(s, a) && Runs(s, t, f) && a != Work(t, Settle)
    requires f in Apply(s, a).fibers && Apply(s, a).fibers[f] != EXEC
    ensures forall p :: !Holds(Apply(s, a), p, f)
  {
    FiberAfter(s, a, f);
    forall p | Born(s, a, p, f) ensures false {
      BornFresh(s, a, p, f);
      if Writes(s, a, f) { WritesHere(s, a, t, f); } else { assert StateIs(s, f, EXEC); }
    }
    if Writes(s, a, f) {
      WritesHere(s, a, t, f);
    } else {
      assert StateIs(s, f, Apply(s, a).fibers[f]);
    }
    StaysUnwoken(s, a, f);
  }

  lemma EndedOwesNothing(s: State, a: Step, t: nat, f: FiberId)
    requires Inv(s) && Enabled(s, a) && Runs(s, t, f) && a != Work(t, Settle)
    requires f in Apply(s, a).fibers && Apply(s, a).fibers[f] != EXEC
    ensures Dead(Apply(s, a), f) ==> f !in Apply(s, a).closures
  {
    FiberAfter(s, a, f);
    AllLocal(s, a, t, f);
    if Writes(s, a, f) {
      WritesHere(s, a, t, f);
    } else {
      assert StateIs(s, f, Apply(s, a).fibers[f]);
    }
    if a.Work? && Starts(s, a, a.t, f) { StartsFree(s, a, a.t, f); }
  }

  lemma KeepRunnerEnded(s: State, a: Step, t: nat, f: FiberId)
    requires Inv(s) && Enabled(s, a) && Runs(s, t, f) && a != Work(t, Settle)
    requires f in Apply(s, a).fibers && Apply(s, a).fibers[f] != EXEC
    ensures forall p :: !Holds(Apply(s, a), p, f)
    ensures Dead(Apply(s, a), f) ==> f !in Apply(s, a).closures
  {
    EndedUnwoken(s, a, t, f);
    EndedOwesNothing(s, a, t, f);
  }

  /** A thread that is inside the fiber's code after the step was so before, or just entered. */
  lemma RunningStays(s: State, a: Step, t: nat, f: FiberId)
    requires Enabled(s, a) && Runs(Apply(s, a), t, f) && Apply(s, a).threads[t].pc.Running?
    ensures Starts(s, a, t, f) || (Runs(s, t, f) && s.threads[t].pc.Running?)
  {
    RunsAfter(s, a, t, f);
    if a.User? { ThreadsUser(s, a); } else { RunsHere(s, a, f); }
  }

  lemma KeepRunnersOk(s: State, a: Step)
    requires Inv(s) && Enabled(s, a)
    ensures RunnersOk(Apply(s, a))
  {
    var s2 := Apply(s, a);
    forall t: nat, f: FiberId | Runs(s2, t, f)
      ensures && f in s2.fibers && s2.fibers[f] in {EXEC, READY, TERM, EXCEPT}
              && (s2.threads[t].pc.Running? ==> s2.fibers[f] == EXEC)
              && (s2.fibers[f] != EXEC ==> forall p :: !Holds(s2, p, f))
              && (Dead(s2, f) ==> f !in s2.closures)
    {
      RunsAfter(s, a, t, f);
      FiberAfter(s, a, f);
      if Starts(s, a, t, f) {
        assert Writes(s, a, f);
      } else {
        if Writes(s, a, f) { WritesHere(s, a, t, f); RunsHere(s, a, f); }
        else { assert StateIs(s, f, s.fibers[f]); }
        if s2.threads[t].pc.Running? { RunningStays(s, a, t, f); }
        if s2.fibers[f] != EXEC { KeepRunnerEnded(s, a, t, f); }
      }
    }
  }

  lemma KeepHandsFree(s: State, a: Step, t: nat, u: nat, f: FiberId)
    requires Inv(s) && Enabled(s, a) && InHandOf(Apply(s, a), t, f)
    ensures !Runs(Apply(s, a), u, f)
  {
    AllLocal(s, a, t, f);
    RunsAfter(s, a, u, f);
    if Picks(s, a, t, f) {
      var i := FirstEligible(s.queue, s.fibers, t);
      assert Holds(s, InQueue(i), f);
    } else if Starts(s, a, u, f) {
      if s.threads[u].pc.task.RunFiber? {
        assert Holds(s, InHand(t), f) && Holds(s, InHand(u), f);
        RunsHere(s, a, f);
      } else {
        CallbackFiberFresh(s, u, f);
        assert Holds(s, InHand(t), f);
      }
    }
  }

  lemma KeepExecRuns(s: State, a: Step, f: FiberId)
    requires Inv(s) && Enabled(s, a) && StateIs(Apply(s, a), f, EXEC)
    ensures exists t: nat :: Runs(Apply(s, a), t, f)
  {
    FiberAfter(s, a, f);
    if Writes(s, a, f) {
      RunsAfter(s, a, a.t, f);
    } else {
      assert StateIs(s, f, EXEC);
      var t: nat :| Runs(s, t, f);
      RunsAfter(s, a, t, f);
    }
  }

  /** A spare fiber is not being run, nor is it being swapped in. */
  lemma SpareNotRun(s: State, a: Step, t: nat, u: nat, f: FiberId)
    requires Inv(s) && Enabled(s, a) && Pockets(Apply(s, a), t, f)
    ensures !Runs(Apply(s, a), u, f) && !Starts(s, a, u, f)
  {
    AllLocal(s, a, t, f);
    RunsAfter(s, a, u, f);
    if Recycles(s, a, t, f) {
      assert Runs(s, t, f);
    } else if Starts(s, a, u, f) {
      if s.threads[u].pc.task.RunFiber? {
        assert Holds(s, InHand(u), f);
      } else {
        assert s.threads[u].pocket.Some? ==> Pockets(s, u, f);
      }
    }
  }

  lemma KeepPocketUnwoken(s: State, a: Step, t: nat, f: FiberId)
    requires Inv(s) && Enabled(s, a) && Pockets(Apply(s, a), t, f)
    ensures forall p :: !Holds(Apply(s, a), p, f)
    ensures Recycles(s, a, t, f) || Pockets(s, t, f)
  {
    AllLocal(s, a, t, f);
    if Recycles(s, a, t, f) {
      assert Runs(s, t, f);
      assert forall p :: !Born(s, a, p, f);
    } else {
      forall p | Born(s, a, p, f) ensures false { BornFresh(s, a, p, f); }
    }
    StaysUnwoken(s, a, f);
  }

  /** A callback fiber that ended is reset as it becomes a spare. */
  lemma RecycledFresh(s: State, a: Step, t: nat, f: FiberId)
    requires Inv(s) && Enabled(s, a) && Recycles(s, a, t, f)
    ensures StateIs(Apply(s, a), f, INIT) && f !in Apply(s, a).closures
  {
    assert Runs(s, t, f) && Writes(s, a, f);
    assert Written(s, a, f) == INIT;
    FiberAfter(s, a, f);
    AllLocal(s, a, t, f);
  }

  /** A spare that stays one is not written to. */
  lemma SpareKept(s: State, a: Step, t: nat, f: FiberId)
    requires Inv(s) && Enabled(s, a) && Pockets(s, t, f) && Pockets(Apply(s, a), t, f)
    ensures StateIs(Apply(s, a), f, INIT) && f !in Apply(s, a).closures
  {
    assert StateIs(s, f, INIT) && f !in s.closures;
    if a.Work? {
      SpareNotRun(s, a, t, a.t, f);
      SpareUnwritten(s, a, t, f);
    }
    AllLocal(s, a, t, f);
    FiberAfter(s, a, f);
  }

  lemma SpareUnwritten(s: State, a: Step, t: nat, f: FiberId)
    requires PocketsOk(s) && Enabled(s, a) && a.Work? && Pockets(s, t, f) && !Starts(s, a, a.t, f)
    ensures !Writes(s, a, f)
  {
    assert !Runs(s, a.t, f);
  }

  lemma KeepPocketFresh(s: State, a: Step, t: nat, f: FiberId)
    requires Inv(s) && Enabled(s, a) && Pockets(Apply(s, a), t, f)
    ensures StateIs(Apply(s, a), f, INIT) && f !in Apply(s, a).closures
  {
    AllLocal(s, a, t, f);
    if Recycles(s, a, t, f) { RecycledFresh(s, a, t, f); } else { SpareKept(s, a, t, f); }
  }

  lemma KeepPocketsOk(s: State, a: Step)
    requires Inv(s) && Enabled(s, a)
    ensures PocketsOk(Apply(s, a))
  {
    var s2 := Apply(s, a);
    forall t: nat, f: FiberId | Pockets(s2, t, f)
      ensures && StateIs(s2, f, INIT) && f !in s2.closures
              && (forall p :: !Holds(s2, p, f)) && (forall u: nat :: !Runs(s2, u, f))
    {
      KeepPocketUnwoken(s, a, t, f);
      KeepPocketFresh(s, a, t, f);
      forall u: nat ensures !Runs(s2, u, f) { SpareNotRun(s, a, t, u, f); }
    }
    forall t: nat, u: nat, f: FiberId | Pockets(s2, t, f) && Pockets(s2, u, f) ensures t == u {
      KeepPocketUnwoken(s, a, t, f);
      KeepPocketUnwoken(s, a, u, f);
      assert Recycles(s, a, t, f) ==> Runs(s, t, f);
      assert Recycles(s, a, u, f) ==> Runs(s, u, f);
    }
  }

  lemma TimersUser(s: State, op: UserOp)
    requires UserOk(s, op) && forall k :: k in s.timers ==> WakesOnce(s.timers[k])
    ensures forall k :: k in DoUser(s, op).timers ==> WakesOnce(DoUser(s, op).timers[k])
  {
    match op
    case AddTimer(_, _) =>
    case CancelTimer(_) =>
    case _ =>
  }

  lemma WaitsWork(s: State, t: nat, op: WorkOp)
    requires ThreadAt(s, t) && WorkOk(s, t, op)
    ensures DoWork(s, t, op).timers == s.timers && DoWork(s, t, op).waits == s.waits
  {
    match op
    case Pick =>
    case Settle =>
    case _ =>
  }

  lemma TimersIdle(s: State, a: Step)
    requires Enabled(s, a) && a.Idle?
    ensures forall k :: k in Apply(s, a).timers ==> k in s.timers && Apply(s, a).timers[k] == s.timers[k]
  {
  }

  lemma KeepKnown(s: State, a: Step)
    requires Inv(s) && Enabled(s, a)
    ensures Known(Apply(s, a))
  {
    var s2 := Apply(s, a);
    forall p, f: FiberId | Holds(s2, p, f) ensures f in s2.fibers {
      AllCarried(s, a, p, f);
      FiberAfter(s, a, f);
      if Born(s, a, p, f) { BornFresh(s, a, p, f); }
      assert StateIs(s, f, s.fibers[f]);
    }
    forall g | g in s2.closures ensures g in s2.fibers {
      AllLocal(s, a, 0, g);
      FiberAfter(s, a, g);
      if g in s.closures { assert StateIs(s, g, s.fibers[g]); }
    }
    match a
    case User(_, op) => TimersUser(s, op);
    case Work(t, op) => WaitsWork(s, t, op);
    case Idle(_, _) => TimersIdle(s, a);
  }

  // ---- Counters ----------------------------------------------------------------------------------

  function Bit(b: bool): int {
    if b then 1 else 0
  }

  lemma CountUpdate(threads: seq<Thread>, t: nat, x: Thread, p: Pc -> bool)
    requires t < |threads|
    ensures Count(threads[t := x], p) == Count(threads, p) - Bit(p(threads[t].pc)) + Bit(p(x.pc))
  {
    if t > 0 {
      assert threads[t := x][1..] == threads[1..][t - 1 := x];
      CountUpdate(threads[1..], t - 1, x, p);
    } else {
      assert threads[t := x][1..] == threads[1..];
    }
  }

  lemma CountersAt(s: State, s2: State, t: nat)
    requires CountersExact(s) && ThreadAt(s, t) && OnlyThread(s, s2, t) && s2.pending == |s2.waits|
    requires s2.active == s.active - Bit(CountsAsActive(s.threads[t].pc))
                          + Bit(CountsAsActive(s2.threads[t].pc))
    requires s2.idle == s.idle - Bit(CountsAsIdle(s.threads[t].pc))
                        + Bit(CountsAsIdle(s2.threads[t].pc))
    ensures CountersExact(s2)
  {
    assert s2.threads == s.threads[t := s2.threads[t]];
    CountUpdate(s.threads, t, s2.threads[t], CountsAsActive);
    CountUpdate(s.threads, t, s2.threads[t], CountsAsIdle);
  }

  lemma TriggerPending(s: State, ws: seq<Wait>)
    requires CountersExact(s) && Distinct(ws) && forall w :: w in ws ==> w in s.waits
    ensures CountersExact(Trigger(s, ws))
  {
    DistinctCount(ws);
    var gone := set w | w in ws;
    assert (s.waits - gone).Keys == s.waits.Keys - gone;
  }

  lemma DistinctCount<T>(xs: seq<T>)
    requires Distinct(xs)
    ensures |set x | x in xs| == |xs|
  {
    if xs != [] {
      DistinctCount(xs[1..]);
      assert xs == [xs[0]] + xs[1..];
      assert (set x | x in xs) == {xs[0]} + set x | x in xs[1..];
    }
  }

  lemma CountersCancel(s: State, a: Step)
    requires CountersExact(s) && Enabled(s, a) && a.User? && (a.call.CancelEvent? || a.call.CancelAll?)
    ensures CountersExact(Apply(s, a))
  {
    TriggerPending(s, Triggered(s, a));
  }

  lemma CountersAdd(s: State, who: Agent, w: Wait, task: Task)
    requires CountersExact(s) && Enabled(s, User(who, AddEvent(w, task)))
    ensures CountersExact(Apply(s, User(who, AddEvent(w, task))))
  {
    assert s.waits[w := task].Keys == s.waits.Keys + {w};
  }

  lemma CountersDel(s: State, who: Agent, w: Wait)
    requires CountersExact(s) && Enabled(s, User(who, DelEvent(w)))
    ensures CountersExact(Apply(s, User(who, DelEvent(w))))
  {
    assert (s.waits - {w}).Keys == s.waits.Keys - {w};
  }

  lemma CountersCall(s: State, a: Step)
    requires CountersExact(s) && Enabled(s, a) && a.User?
    requires a.call.NewFiber? || a.call.Schedule? || a.call.RequestStop?
    ensures CountersExact(Apply(s, a))
  {
  }

  lemma CountersTimer(s: State, a: Step)
    requires CountersExact(s) && Enabled(s, a) && a.User? && (a.call.AddTimer? || a.call.CancelTimer?)
    ensures CountersExact(Apply(s, a))
  {
  }

  lemma CountersPick(s: State, t: nat)
    requires CountersExact(s) && Enabled(s, Work(t, Pick))
    ensures CountersExact(Apply(s, Work(t, Pick)))
  {
    var i := FirstEligible(s.queue, s.fibers, t);
    if i == |s.queue| {
      CountersAt(s, AtPc(s, t, NoTask), t);
    } else {
      CountersAt(s, DoPick(s, t), t);
    }
  }

  lemma CountersStart(s: State, t: nat, g: FiberId)
    requires CountersExact(s) && Enabled(s, Work(t, Start(g)))
    ensures CountersExact(Apply(s, Work(t, Start(g))))
  {
    match s.threads[t].pc.task
    case RunFiber(f) => CountersStartFiber(s, t, f);
    case RunCallback(cb) => CountersStartCallback(s, t, g, cb);
  }

  lemma CountersStartFiber(s: State, t: nat, f: FiberId)
    requires CountersExact(s) && ThreadAt(s, t) && s.threads[t].pc == Holding(RunFiber(f))
    ensures CountersExact(DoStartFiber(s, t, f))
  {
    CountersAt(s, DoStartFiber(s, t, f), t);
  }

  lemma CountersStartCallback(s: State, t: nat, g: FiberId, cb: Callback)
    requires CountersExact(s) && ThreadAt(s, t) && s.threads[t].pc == Holding(RunCallback(cb))
    ensures CountersExact(DoStartCallback(s, t, g, cb))
  {
    CountersAt(s, DoStartCallback(s, t, g, cb), t);
  }

  lemma CountersSettle(s: State, t: nat)
    requires CountersExact(s) && Enabled(s, Work(t, Settle))
    ensures CountersExact(Apply(s, Work(t, Settle)))
  {
    CountersAt(s, DoSettle(s, t), t);
  }

  lemma CountersYield(s: State, a: Step)
    requires CountersExact(s) && Enabled(s, a) && a.Work? && (a.op.YieldToReady? || a.op.Finish?)
    ensures CountersExact(Apply(s, a))
  {
    CountersAt(s, Apply(s, a), a.t);
  }

  lemma CountersLeave(s: State, a: Step)
    requires CountersExact(s) && Enabled(s, a) && a.Work?
    requires a.op.YieldToHold? || a.op.Leave? || a.op.FireWake?
    ensures CountersExact(Apply(s, a))
  {
    CountersAt(s, Apply(s, a), a.t);
  }

  lemma CountersIdle(s: State, a: Step)
    requires CountersExact(s) && Enabled(s, a) && a.Idle?
    requires a.iop.EnterIdle? || a.iop.CheckStopping? || a.iop.SwapOutIdle? || a.iop.LeaveIdle?
    ensures CountersExact(Apply(s, a))
  {
    CountersAt(s, Apply(s, a), a.t);
  }

  lemma CountersReady(s: State, t: nat, fd: nat, events: set<Event>)
    requires CountersExact(s) && Enabled(s, Idle(t, Readiness(fd, events)))
    ensures CountersExact(Apply(s, Idle(t, Readiness(fd, events))))
  {
    TriggerPending(s, Chosen(s.waits, fd, events));
  }

  lemma CountersBatch(s: State, a: Step)
    requires CountersExact(s) && Enabled(s, a) && a.Idle? && (a.iop.Expire? || a.iop.ScheduleBatch?)
    ensures CountersExact(Apply(s, a))
  {
    CountersAt(s, Apply(s, a), a.t);
  }

  lemma KeepCounters(s: State, a: Step)
    requires CountersExact(s) && Enabled(s, a)
    ensures CountersExact(Apply(s, a))
  {
    match a
    case User(_, CancelEvent(_)) => CountersCancel(s, a);
    case User(_, CancelAll(_)) => CountersCancel(s, a);
    case User(who, AddEvent(w, task)) => CountersAdd(s, who, w, task);
    case User(who, DelEvent(w)) => CountersDel(s, who, w);
    case User(_, AddTimer(_, _)) => CountersTimer(s, a);
    case User(_, CancelTimer(_)) => CountersTimer(s, a);
    case User(_, _) => CountersCall(s, a);
    case Work(t, Pick) => CountersPick(s, t);
    case Work(t, Start(g)) => CountersStart(s, t, g);
    case Work(t, Settle) => CountersSettle(s, t);
    case Work(_, YieldToReady) => CountersYield(s, a);
    case Work(_, Finish(_)) => CountersYield(s, a);
    case Work(_, _) => CountersLeave(s, a);
    case Idle(t, Readiness(fd, events)) => CountersReady(s, t, fd, events);
    case Idle(_, Expire(_)) => CountersBatch(s, a);
    case Idle(_, ScheduleBatch) => CountersBatch(s, a);
    case Idle(_, _) => CountersIdle(s, a);
  }

  // ---- Together ------------------------------------------------------------------------------------

  lemma InvInit(threads: nat)
    ensures Inv(Init(threads))
  {
    CountScanning(seq(threads, _ => Thread(Scanning, None, false)));
  }

  lemma CountScanning(threads: seq<Thread>)
    requires forall t :: 0 <= t < |threads| ==> threads[t].pc.Scanning?
    ensures Count(threads, CountsAsActive) == 0 && Count(threads, CountsAsIdle) == 0
  {
  }

  /** Every step keeps the invariant. */
  lemma KeepInv(s: State, a: Step)
    requires Inv(s) && Enabled(s, a)
    ensures Inv(Apply(s, a))
  {
    var s2 := Apply(s, a);
    forall p, q, f: FiberId | Holds(s2, p, f) && Holds(s2, q, f) ensures p == q {
      KeepWakeupsUnique(s, a, p, q, f);
    }
    forall t: nat, u: nat, f: FiberId | Runs(s2, t, f) && Runs(s2, u, f) ensures t == u {
      KeepOneRunner(s, a, t, u, f);
    }
    forall t: nat, u: nat, f: FiberId | InHandOf(s2, t, f) ensures !Runs(s2, u, f) {
      KeepHandsFree(s, a, t, u, f);
    }
    forall f: FiberId | StateIs(s2, f, EXEC) ensures exists t: nat :: Runs(s2, t, f) {
      KeepExecRuns(s, a, f);
    }
    KeepRunnersOk(s, a);
    KeepPocketsOk(s, a);
    KeepKnown(s, a);
    KeepCounters(s, a);
  }

  lemma InvAfter(s: State, run: seq<Step>)
    requires Inv(s) && IsRun(s, run)
    ensures Inv(After(s, run))
    decreases |run|
  {
    if run != [] {
      KeepInv(s, run[0]);
      InvAfter(Apply(s, run[0]), run[1..]);
    }
  }

}
