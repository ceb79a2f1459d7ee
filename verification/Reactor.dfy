/**
 The fiber scheduler and the epoll manager as one state machine.

 A state records everything the scheduler threads share (task queue, fiber states, armed
 waits, timers, counters, stop flags) and, per thread, where that thread is inside
 Scheduler::run or IOManager::idle.  One step is one lock region, or one stretch of code that
 touches only what its thread owns.  In particular the decrement of the active counter and
 the settling of a swapped-out fiber are two steps, and so are taking expired timers out of
 the timer set and queueing their callbacks.

 What user code may do is not fixed: any step of a running fiber, or of a thread outside the
 scheduler, is an input.  The only restriction is the wake-up discipline: what CanHandOut says
 of handing out a wake-up, and that a fiber neither yields READY nor ends while one of its own is
 outstanding.
 */
module Reactor {
  import opened Options

  // ---- Entities ---------------------------------------------------------------------------

  type FiberId = nat

  datatype FiberState = INIT | HOLD | EXEC | TERM | READY | EXCEPT

  /** A callback is known only by whether running it schedules a parked fiber (sleep's timer). */
  datatype Callback = Wake(sleeper: FiberId) | Other(id: nat)

  datatype Task = RunFiber(fiber: FiberId) | RunCallback(cb: Callback)

  /** FiberAndThread: thread -1 means any thread. */
  datatype Entry = Entry(task: Task, thread: int)

  datatype Event = READ | WRITE

  datatype Wait = Wait(fd: nat, event: Event)

  datatype Timer = Timer(cb: Callback, recurring: bool)

  /** Where a scheduler thread is. */
  datatype Pc =
    | Scanning                                    // at the top of the run loop
    | Holding(task: Task)                         // took an entry, counted as active
    | Running(fiber: FiberId, fromCb: bool)       // inside swapIn
    | Returned(fiber: FiberId, fromCb: bool)      // swapped out, still counted as active
    | Settling(fiber: FiberId, fromCb: bool)      // no longer counted, state not yet settled
    | NoTask                                      // the scan found nothing
    | IdleCheck                                   // idle: about to ask stopping()
    | IdleExpire                                  // idle: back from epoll_wait
    | IdleBatch(cbs: seq<Callback>)               // idle: holds expired callbacks
    | IdleEvents                                  // idle: working through delivered events
    | IdleLeave                                   // idle fiber swapped out
    | Exited

  /** A thread also keeps the ended callback fiber it may reuse, and whether its idle fiber ended. */
  datatype Thread = Thread(pc: Pc, pocket: Option<FiberId>, idleDone: bool)

  datatype State = State(
    queue: seq<Entry>,
    fibers: map<FiberId, FiberState>,
    closures: map<FiberId, FiberId>,              // callback fibers still owing a wake-up
    threads: seq<Thread>,
    waits: map<Wait, Task>,                       // armed bits with their parked task
    timers: map<nat, Timer>,
    pending: int,
    active: int,
    idle: int,
    autoStop: bool,
    stopRequested: bool
  )

  function Init(threads: nat): State {
    State([], map[], map[], seq(threads, _ => Thread(Scanning, None, false)),
          map[], map[], 0, 0, 0, false, false)
  }

  // ---- Wake-ups and where they are --------------------------------------------------------

  /** Running the task resumes f, or schedules it. */
  predicate Wakes(task: Task, f: FiberId) {
    task == RunFiber(f) || task == RunCallback(Wake(f))
  }

  /** The places that can hold a wake-up; Gone is nowhere. */
  datatype Place =
    | InQueue(i: nat)
    | InHand(t: nat)
    | InBatch(t: nat, i: nat)
    | InWait(w: Wait)
    | InTimer(k: nat)
    | InClosure(g: FiberId)
    | Gone

  ghost predicate Holds(s: State, p: Place, f: FiberId) {
    match p
    case InQueue(i) => i < |s.queue| && Wakes(s.queue[i].task, f)
    case InHand(t) =>
      t < |s.threads| && s.threads[t].pc.Holding? && Wakes(s.threads[t].pc.task, f)
    case InBatch(t, i) =>
      && t < |s.threads| && s.threads[t].pc.IdleBatch?
      && i < |s.threads[t].pc.cbs| && s.threads[t].pc.cbs[i] == Wake(f)
    case InWait(w) => w in s.waits && Wakes(s.waits[w], f)
    case InTimer(k) => k in s.timers && s.timers[k].cb == Wake(f)
    case InClosure(g) => g in s.closures && s.closures[g] == f
    case Gone => false
  }

  ghost predicate Outstanding(s: State, f: FiberId) {
    exists p :: Holds(s, p, f)
  }

  /** Thread t is between swapIn of f and having settled it. */
  predicate Runs(s: State, t: nat, f: FiberId) {
    && t < |s.threads|
    && match s.threads[t].pc
       case Running(g, _) => g == f
       case Returned(g, _) => g == f
       case Settling(g, _) => g == f
       case _ => false
  }

  predicate Pockets(s: State, t: nat, f: FiberId) {
    t < |s.threads| && s.threads[t].pocket == Some(f)
  }

  predicate StateIs(s: State, f: FiberId, st: FiberState) {
    f in s.fibers && s.fibers[f] == st
  }

  /**
   The wake-up discipline: code may hand out a wake-up for f only if none is outstanding, f
   has not already yielded as READY or ended in the hands of a thread, and f is not a spare
   callback fiber.
   */
  ghost predicate CanHandOut(s: State, f: FiberId) {
    && f in s.fibers
    && !Outstanding(s, f)
    && (forall t :: Runs(s, t, f) ==> s.fibers[f] == EXEC)
    && (forall t :: !Pockets(s, t, f))
  }

  ghost predicate CanAccept(s: State, task: Task) {
    forall f: FiberId :: Wakes(task, f) ==> CanHandOut(s, f)
  }

  // ---- Steps ------------------------------------------------------------------------------

  /** Who performs a user-level step: the fiber running on a thread, or code outside. */
  datatype Agent = Outside | FiberOn(t: nat)

  datatype UserOp =
    | NewFiber(f: FiberId)
    | Schedule(task: Task, thread: int)
    | AddEvent(w: Wait, task: Task)
    | DelEvent(w: Wait)
    | CancelEvent(w: Wait)
    | CancelAll(fd: nat)
    | AddTimer(k: nat, timer: Timer)
    | CancelTimer(k: nat)
    | RequestStop

  /** One pass through the run loop, and what the running fiber does with control. */
  datatype WorkOp =
    | Pick
    | Start(g: FiberId)                           // g: the fiber made for a callback
    | FireWake                                    // the running callback schedules its fiber
    | YieldToHold
    | YieldToReady
    | Finish(threw: bool)
    | Leave                                       // --m_activeThreadCount
    | Settle

  datatype IdleOp =
    | EnterIdle
    | CheckStopping
    | Expire(ks: seq<nat>)                        // listExpiredCb
    | ScheduleBatch
    | Readiness(fd: nat, events: set<Event>)
    | SwapOutIdle
    | LeaveIdle

  datatype Step =
    | User(who: Agent, call: UserOp)
    | Work(t: nat, op: WorkOp)
    | Idle(t: nat, iop: IdleOp)

  predicate ThreadAt(s: State, t: nat) {
    t < |s.threads|
  }

  predicate Eligible(e: Entry, fibers: map<FiberId, FiberState>, t: nat) {
    && (e.thread == -1 || e.thread == t)
    && !(e.task.RunFiber? && e.task.fiber in fibers && fibers[e.task.fiber] == EXEC)
  }

  /** The scan: index of the first entry this thread may take, or the queue's length. */
  function FirstEligible(queue: seq<Entry>, fibers: map<FiberId, FiberState>, t: nat): (i: nat)
    ensures i <= |queue|
    ensures i < |queue| ==> Eligible(queue[i], fibers, t)
    ensures forall j :: 0 <= j < i ==> !Eligible(queue[j], fibers, t)
  {
    if queue == [] || Eligible(queue[0], fibers, t) then 0
    else 1 + FirstEligible(queue[1..], fibers, t)
  }

  predicate Distinct<T(==)>(xs: seq<T>) {
    forall i, j :: 0 <= i < j < |xs| ==> xs[i] != xs[j]
  }

  /** The waits that a readiness or cancelAll step triggers, READ before WRITE. */
  function Chosen(waits: map<Wait, Task>, fd: nat, events: set<Event>): (ws: seq<Wait>)
    ensures Distinct(ws)
    ensures forall w :: w in ws <==> w in waits && w == Wait(fd, w.event) && w.event in events
  {
    var r := if READ in events && Wait(fd, READ) in waits then [Wait(fd, READ)] else [];
    var w := if WRITE in events && Wait(fd, WRITE) in waits then [Wait(fd, WRITE)] else [];
    assert forall x: Wait :: x.event == READ || x.event == WRITE;
    r + w
  }

  /** What the armed bits ws queue when they are triggered: their parked tasks, in order. */
  function Wakeups(waits: map<Wait, Task>, ws: seq<Wait>): (es: seq<Entry>)
    requires forall w :: w in ws ==> w in waits
    ensures |es| == |ws|
  {
    seq(|ws|, i requires 0 <= i < |ws| => assert ws[i] in ws; Entry(waits[ws[i]], -1))
  }

  function Trigger(s: State, ws: seq<Wait>): State
    requires forall w :: w in ws ==> w in s.waits
  {
    s.(queue := s.queue + Wakeups(s.waits, ws),
       waits := s.waits - (set w | w in ws),
       pending := s.pending - |ws|)
  }

  function AtPc(s: State, t: nat, pc: Pc): State
    requires ThreadAt(s, t)
  {
    s.(threads := s.threads[t := s.threads[t].(pc := pc)])
  }

  predicate Stopping(s: State) {
    && s.timers == map[] && s.pending == 0
    && s.autoStop && s.stopRequested && s.queue == [] && s.active == 0
  }

  predicate Dead(s: State, f: FiberId) {
    StateIs(s, f, TERM) || StateIs(s, f, EXCEPT)
  }

  function Cancelled(waits: map<Wait, Task>, w: Wait): (ws: seq<Wait>)
    ensures Distinct(ws)
    ensures forall x :: x in ws <==> x in waits && x == w
  {
    if w in waits then [w] else []
  }

  /** The waits a step triggers. */
  function Triggered(s: State, a: Step): (ws: seq<Wait>)
    ensures Distinct(ws)
    ensures forall w :: w in ws ==> w in s.waits
  {
    match a
    case User(_, CancelEvent(w)) => Cancelled(s.waits, w)
    case User(_, CancelAll(fd)) => Chosen(s.waits, fd, {READ, WRITE})
    case Idle(_, Readiness(fd, events)) => Chosen(s.waits, fd, events)
    case _ => []
  }

  ghost predicate UserOk(s: State, op: UserOp) {
    match op
    case NewFiber(f) => f !in s.fibers
    case Schedule(task, _) => CanAccept(s, task)
    case AddEvent(w, task) => w !in s.waits && CanAccept(s, task)
    case AddTimer(k, timer) =>
      && k !in s.timers && CanAccept(s, RunCallback(timer.cb))
      && (timer.recurring ==> timer.cb.Other?)
    case _ => true
  }

  ghost predicate WorkOk(s: State, t: nat, op: WorkOp)
    requires ThreadAt(s, t)
  {
    var pc := s.threads[t].pc;
    match op
    case Pick => pc.Scanning?
    case Start(g) =>
      && pc.Holding?
      && (pc.task.RunCallback? ==>
            if s.threads[t].pocket.Some? then g == s.threads[t].pocket.value else g !in s.fibers)
    case FireWake => pc.Running? && pc.fiber in s.closures
    case YieldToHold => pc.Running?
    case YieldToReady => pc.Running? && !Outstanding(s, pc.fiber)
    case Finish(_) => pc.Running? && !Outstanding(s, pc.fiber)
    case Leave => pc.Returned?
    case Settle => pc.Settling?
  }

  predicate IdleOk(s: State, t: nat, op: IdleOp)
    requires ThreadAt(s, t)
  {
    var pc := s.threads[t].pc;
    match op
    case EnterIdle => pc.NoTask?
    case CheckStopping => pc.IdleCheck?
    case Expire(ks) => pc.IdleExpire? && Distinct(ks) && forall k :: k in ks ==> k in s.timers
    case ScheduleBatch => pc.IdleBatch?
    case Readiness(_, _) => pc.IdleEvents?
    case SwapOutIdle => pc.IdleEvents?
    case LeaveIdle => pc.IdleLeave?
  }

  ghost predicate Enabled(s: State, a: Step) {
    match a
    case User(who, op) =>
      (who.FiberOn? ==> ThreadAt(s, who.t) && s.threads[who.t].pc.Running?) && UserOk(s, op)
    case Work(t, op) => ThreadAt(s, t) && WorkOk(s, t, op)
    case Idle(t, op) => ThreadAt(s, t) && IdleOk(s, t, op)
  }

  function DoPick(s: State, t: nat): State
    requires ThreadAt(s, t)
  {
    var i := FirstEligible(s.queue, s.fibers, t);
    if i == |s.queue| then AtPc(s, t, NoTask)
    else AtPc(s, t, Holding(s.queue[i].task)).(queue := s.queue[..i] + s.queue[i + 1..],
                                              active := s.active + 1)
  }

  /** Lines 187-190: a dead fiber is dropped, any other is swapped in. */
  function DoStartFiber(s: State, t: nat, f: FiberId): State
    requires ThreadAt(s, t)
  {
    s.(threads := s.threads[t := s.threads[t].(
                               pc := if Dead(s, f) then Scanning else Running(f, false))],
       fibers := if Dead(s, f) then s.fibers else s.fibers[f := EXEC],
       active := if Dead(s, f) then s.active - 1 else s.active)
  }

  /** Lines 202-213: the callback runs in the thread's spare fiber, or in a new one. */
  function DoStartCallback(s: State, t: nat, g: FiberId, cb: Callback): State
    requires ThreadAt(s, t)
  {
    s.(threads := s.threads[t := s.threads[t].(pc := Running(g, true), pocket := None)],
       fibers := s.fibers[g := EXEC],
       closures := if cb.Wake? then s.closures[g := cb.sleeper] else s.closures - {g})
  }

  function DoStart(s: State, t: nat, g: FiberId): State
    requires ThreadAt(s, t) && s.threads[t].pc.Holding?
  {
    match s.threads[t].pc.task
    case RunFiber(f) => DoStartFiber(s, t, f)
    case RunCallback(cb) => DoStartCallback(s, t, g, cb)
  }

  /** Lines 194-199 and 216-225 of scheduler.cc. */
  function DoSettle(s: State, t: nat): State
    requires ThreadAt(s, t) && s.threads[t].pc.Settling?
  {
    var f := s.threads[t].pc.fiber;
    var ready := StateIs(s, f, READY);
    var spare := Dead(s, f) && s.threads[t].pc.fromCb;
    s.(queue := if ready then s.queue + [Entry(RunFiber(f), -1)] else s.queue,
       fibers := if spare then s.fibers[f := INIT]
                 else if ready || Dead(s, f) then s.fibers
                 else s.fibers[f := HOLD],
       threads := s.threads[t := s.threads[t].(
                              pc := Scanning,
                              pocket := if spare then Some(f) else s.threads[t].pocket)])
  }

  function DoCheckStopping(s: State, t: nat): State
    requires ThreadAt(s, t)
  {
    var stop := Stopping(s);
    s.(threads := s.threads[t := s.threads[t].(
                              pc := if stop then IdleLeave else IdleExpire,
                              idleDone := s.threads[t].idleDone || stop)])
  }

  function DoExpire(s: State, t: nat, ks: seq<nat>): State
    requires ThreadAt(s, t) && forall k :: k in ks ==> k in s.timers
  {
    var cbs := seq(|ks|, i requires 0 <= i < |ks| => assert ks[i] in ks; s.timers[ks[i]].cb);
    AtPc(s, t, IdleBatch(cbs)).(
      timers := map k | k in s.timers && (k !in ks || s.timers[k].recurring) :: s.timers[k])
  }

  function DoScheduleBatch(s: State, t: nat): State
    requires ThreadAt(s, t) && s.threads[t].pc.IdleBatch?
  {
    var cbs := s.threads[t].pc.cbs;
    AtPc(s, t, IdleEvents).(
      queue := s.queue + seq(|cbs|, i requires 0 <= i < |cbs| => Entry(RunCallback(cbs[i]), -1)))
  }

  function DoFireWake(s: State, t: nat): State
    requires ThreadAt(s, t) && s.threads[t].pc.Running? && s.threads[t].pc.fiber in s.closures
  {
    var g := s.threads[t].pc.fiber;
    s.(queue := s.queue + [Entry(RunFiber(s.closures[g]), -1)], closures := s.closures - {g})
  }

  /** The running fiber swaps out after its state became st; an ended one drops its closure. */
  function DoSwapOut(s: State, t: nat, st: FiberState): State
    requires ThreadAt(s, t) && s.threads[t].pc.Running?
  {
    var f := s.threads[t].pc.fiber;
    AtPc(s, t, Returned(f, s.threads[t].pc.fromCb)).(
      fibers := s.fibers[f := st],
      closures := if st == TERM || st == EXCEPT then s.closures - {f} else s.closures)
  }

  function DoEnterIdle(s: State, t: nat): State
    requires ThreadAt(s, t)
  {
    AtPc(s, t, if s.threads[t].idleDone then Exited else IdleCheck).(
      idle := if s.threads[t].idleDone then s.idle else s.idle + 1)
  }

  ghost function DoUser(s: State, op: UserOp): State {
    match op
    case NewFiber(f) => s.(fibers := s.fibers[f := INIT])
    case Schedule(task, thread) => s.(queue := s.queue + [Entry(task, thread)])
    case AddEvent(w, task) => s.(waits := s.waits[w := task], pending := s.pending + 1)
    case DelEvent(w) =>
      s.(waits := s.waits - {w}, pending := if w in s.waits then s.pending - 1 else s.pending)
    case CancelEvent(w) => Trigger(s, Cancelled(s.waits, w))
    case CancelAll(fd) => Trigger(s, Chosen(s.waits, fd, {READ, WRITE}))
    case AddTimer(k, timer) => s.(timers := s.timers[k := timer])
    case CancelTimer(k) => s.(timers := s.timers - {k})
    case RequestStop => s.(autoStop := true, stopRequested := true)
  }

  ghost function DoWork(s: State, t: nat, op: WorkOp): State
    requires ThreadAt(s, t) && WorkOk(s, t, op)
  {
    match op
    case Pick => DoPick(s, t)
    case Start(g) => DoStart(s, t, g)
    case FireWake => DoFireWake(s, t)
    case YieldToHold => AtPc(s, t, Returned(s.threads[t].pc.fiber, s.threads[t].pc.fromCb))
    case YieldToReady => DoSwapOut(s, t, READY)
    case Finish(threw) => DoSwapOut(s, t, if threw then EXCEPT else TERM)
    case Leave =>
      AtPc(s, t, Settling(s.threads[t].pc.fiber, s.threads[t].pc.fromCb)).(active := s.active - 1)
    case Settle => DoSettle(s, t)
  }

  function DoIdle(s: State, t: nat, op: IdleOp): State
    requires ThreadAt(s, t) && IdleOk(s, t, op)
  {
    match op
    case EnterIdle => DoEnterIdle(s, t)
    case CheckStopping => DoCheckStopping(s, t)
    case Expire(ks) => DoExpire(s, t, ks)
    case ScheduleBatch => DoScheduleBatch(s, t)
    case Readiness(fd, events) => Trigger(s, Chosen(s.waits, fd, events))
    case SwapOutIdle => AtPc(s, t, IdleLeave)
    case LeaveIdle => AtPc(s, t, Scanning).(idle := s.idle - 1)
  }

  ghost function Apply(s: State, a: Step): State
    requires Enabled(s, a)
  {
    match a
    case User(_, op) => DoUser(s, op)
    case Work(t, op) => DoWork(s, t, op)
    case Idle(t, op) => DoIdle(s, t, op)
  }

  // ---- Runs -------------------------------------------------------------------------------

  ghost predicate IsRun(s: State, run: seq<Step>)
    decreases |run|
  {
    run == [] || (Enabled(s, run[0]) && IsRun(Apply(s, run[0]), run[1..]))
  }

  ghost function After(s: State, run: seq<Step>): State
    requires IsRun(s, run)
    decreases |run|
  {
    if run == [] then s else After(Apply(s, run[0]), run[1..])
  }

  /** A step of the scheduler's own threads, fibers included; not one from outside. */
  predicate Internal(a: Step) {
    a.User? ==> a.who.FiberOn?
  }

}
