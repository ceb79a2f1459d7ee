/**
 IOManager's event bookkeeping: per-descriptor contexts, the pending counter, the task queue it
 feeds and the kernel's interest map, updated in place.  epoll_ctl may fail for reasons of its
 own (kernelOk), but is never called with an operation the kernel would have to refuse.
 */
module IoManager {
  import opened Options
  import opened Reactor
  import opened ReactorInvariant

  /** EventContext: scheduler is the pointer's presence. */
  datatype EventContext = EventContext(scheduler: bool, fiber: Option<FiberId>, cb: Option<Callback>)

  const EMPTY := EventContext(false, None, None)

  predicate Parked(ctx: EventContext) {
    ctx.scheduler && ctx.fiber.Some? != ctx.cb.Some?
  }

  function TaskOf(ctx: EventContext): Task
    requires Parked(ctx)
  {
    if ctx.cb.Some? then RunCallback(ctx.cb.value) else RunFiber(ctx.fiber.value)
  }

  datatype EpollOp = CtlAdd | CtlMod | CtlDel

  datatype PollFlag = PollIn | PollOut | PollErr | PollHup

  datatype Outcome = Skipped | KernelFailed | Dispatched | AssertFailed

  class FdContext {
    const fd: nat
    var events: set<Event>
    var read: EventContext
    var write: EventContext

    constructor (fd: nat)
      ensures this.fd == fd && events == {} && read == EMPTY && write == EMPTY
    {
      this.fd := fd;
      events, read, write := {}, EMPTY, EMPTY;
    }

    /** getContext */
    function Context(event: Event): EventContext
      reads this
    {
      if event.READ? then read else write
    }

    /** A bit is set exactly when its context holds a scheduler and one of fiber and callback. */
    ghost predicate Valid()
      reads this
    {
      forall e: Event :: if e in events then Parked(Context(e)) else Context(e) == EMPTY
    }

    method SetContext(event: Event, ctx: EventContext)
      modifies this`read, this`write
      ensures Context(event) == ctx
      ensures forall e: Event :: e != event ==> Context(e) == old(Context(e))
    {
      if event.READ? { read := ctx; } else { write := ctx; }
    }

    /** triggerEvent: clears the bit and hands out the parked task; the context ends up empty. */
    method TriggerEvent(event: Event) returns (task: Task)
      requires Valid() && event in events
      modifies this
      ensures Valid() && events == old(events) - {event}
      ensures task == old(TaskOf(Context(event)))
      ensures forall e: Event :: e != event ==> Context(e) == old(Context(e))
    {
      events := events - {event};
      var ctx := Context(event);
      task := if ctx.cb.Some? then RunCallback(ctx.cb.value) else RunFiber(ctx.fiber.value);
      SetContext(event, EMPTY);
    }
  }

  /** Context i agrees with the kernel's interest map and with the armed waits. */
  ghost predicate ContextOk(ctx: FdContext, i: nat, kernel: map<nat, set<Event>>, waits: map<Wait, Task>)
    reads ctx
  {
    && ctx.fd == i && ctx.Valid()
    && (if ctx.events == {} then i !in kernel else i in kernel && kernel[i] == ctx.events)
    && forall e: Event ::
         if e in ctx.events
         then Wait(i, e) in waits && waits[Wait(i, e)] == TaskOf(ctx.Context(e))
         else Wait(i, e) !in waits
  }

  class IoManager {
    var contexts: seq<FdContext>                  // m_fdContexts
    var pending: int                              // m_pendingEventCount
    var queue: seq<Entry>                         // m_fibers of the scheduler it is
    var kernel: map<nat, set<Event>>              // epoll's interest map
    ghost var waits: map<Wait, Task>              // the armed bits with their parked tasks

    ghost predicate Valid()
      reads this, contexts
    {
      && |contexts| >= 32
      && (forall i, j :: 0 <= i < j < |contexts| ==> contexts[i] != contexts[j])
      && (forall i :: 0 <= i < |contexts| ==> ContextOk(contexts[i], i, kernel, waits))
      && (forall i :: i in kernel ==> i < |contexts|)
      && (forall w :: w in waits ==> w.fd < |contexts|)
      && pending == |waits|
    }

    constructor ()
      ensures Valid() && (forall c :: c in contexts ==> fresh(c)) && |contexts| == 32
      ensures waits == map[] && queue == [] && pending == 0
    {
      contexts, pending, queue, kernel, waits := [], 0, [], map[], map[];
      new;
      while |contexts| < 32
        invariant |contexts| <= 32 && forall c :: c in contexts ==> fresh(c)
        invariant pending == 0 && queue == [] && kernel == map[] && waits == map[]
        invariant forall i, j :: 0 <= i < j < |contexts| ==> contexts[i] != contexts[j]
        invariant forall i :: 0 <= i < |contexts| ==>
                    contexts[i].events == {} && ContextOk(contexts[i], i, kernel, waits)
      {
        var ctx := new FdContext(|contexts|);
        contexts := contexts + [ctx];
      }
    }

    /** epoll_ctl; the precondition is what the kernel demands of the operation. */
    method EpollCtl(op: EpollOp, fd: nat, events: set<Event>, kernelOk: bool) returns (rt: int)
      requires if op.CtlAdd? then fd !in kernel else fd in kernel
      modifies this`kernel
      ensures rt == 0 <==> kernelOk
      ensures kernel == if !kernelOk then old(kernel)
                        else if op.CtlDel? then old(kernel) - {fd}
                        else old(kernel)[fd := events]
    {
      if !kernelOk { return -1; }
      kernel := if op.CtlDel? then kernel - {fd} else kernel[fd := events];
      rt := 0;
    }

    /** contextResize, called to grow. */
    method Resize(size: nat)
      requires Valid() && size >= |contexts|
      modifies this`contexts
      ensures Valid() && |contexts| == size && old(contexts) <= contexts
      ensures forall i :: |old(contexts)| <= i < size ==> fresh(contexts[i])
    {
      while |contexts| < size
        invariant |old(contexts)| <= |contexts| <= size && old(contexts) <= contexts
        invariant forall i :: |old(contexts)| <= i < |contexts| ==> fresh(contexts[i])
        invariant Valid()
      {
        var ctx := new FdContext(|contexts|);
        contexts := contexts + [ctx];
      }
    }

    /** Changing one context, and the books only for it, keeps the other contexts in order. */
    twostate lemma OthersKept(fd: nat)
      requires old(Valid()) && contexts == old(contexts) && fd < |contexts|
      requires forall i :: 0 <= i < |contexts| && i != fd ==> unchanged(contexts[i])
      requires forall i: nat :: i != fd ==> (i in kernel <==> i in old(kernel))
      requires forall i: nat :: i != fd && i in kernel ==> kernel[i] == old(kernel[i])
      requires forall w: Wait :: w.fd != fd ==> (w in waits <==> w in old(waits))
      requires forall w: Wait :: w.fd != fd && w in waits ==> waits[w] == old(waits[w])
      requires ContextOk(contexts[fd], fd, kernel, waits) && pending == |waits|
      ensures Valid()
    {
      forall i | 0 <= i < |contexts| && i != fd ensures ContextOk(contexts[i], i, kernel, waits) {
        assert old(ContextOk(contexts[i], i, kernel, waits));
      }
      assert fd !in kernel || fd < |contexts|;
    }

    /** The part of addEvent that runs under the context's lock. */
    method Arm(fd: nat, event: Event, cb: Option<Callback>, current: FiberId, kernelOk: bool)
      returns (rt: int)
      requires Valid() && fd < |contexts| && Wait(fd, event) !in waits
      modifies this`pending, this`kernel, this`waits, contexts[fd]
      ensures Valid()
      ensures rt == 0 <==> kernelOk
      ensures waits == if rt != 0 then old(waits)
                       else old(waits)[Wait(fd, event) :=
                              if cb.Some? then RunCallback(cb.value) else RunFiber(current)]
    {
      var ctx := contexts[fd];
      assert ContextOk(ctx, fd, kernel, waits);
      var op := if ctx.events != {} then CtlMod else CtlAdd;
      rt := EpollCtl(op, fd, ctx.events + {event}, kernelOk);
      if rt != 0 { return -1; }
      pending := pending + 1;
      ctx.events := ctx.events + {event};
      ctx.SetContext(event, if cb.Some? then EventContext(true, None, cb)
                            else EventContext(true, Some(current), None));
      waits := waits[Wait(fd, event) := TaskOf(ctx.Context(event))];
      OthersKept(fd);
    }

    /** addEvent: parks the callback, or the running fiber when there is none. */
    method AddEvent(fd: nat, event: Event, cb: Option<Callback>, current: FiberId, kernelOk: bool)
      returns (rt: int)
      requires Valid() && Wait(fd, event) !in waits
      modifies this, contexts
      ensures Valid() && queue == old(queue) && old(contexts) <= contexts
      ensures forall i :: |old(contexts)| <= i < |contexts| ==> fresh(contexts[i])
      ensures |contexts| == if |old(contexts)| <= fd then fd * 3 / 2 else |old(contexts)|
      ensures rt == 0 <==> kernelOk
      ensures waits == if rt != 0 then old(waits)
                       else old(waits)[Wait(fd, event) :=
                              if cb.Some? then RunCallback(cb.value) else RunFiber(current)]
    {
      if |contexts| <= fd {
        Resize(fd * 3 / 2);
      }
      rt := Arm(fd, event, cb, current, kernelOk);
    }

    /** The lookup that every removal starts with. */
    predicate IsArmed(fd: nat, event: Event)
      reads this, contexts
    {
      fd < |contexts| && event in contexts[fd].events
    }

    lemma ArmedIsWaiting(fd: nat, event: Event)
      requires Valid()
      ensures IsArmed(fd, event) <==> Wait(fd, event) in waits
    {
      if fd < |contexts| { assert ContextOk(contexts[fd], fd, kernel, waits); }
    }

    /** Clears one armed bit and its context. */
    method Forget(fd: nat, event: Event)
      requires fd < |contexts| && contexts[fd].Valid() && event in contexts[fd].events
      requires Wait(fd, event) in waits && pending == |waits|
      modifies this`pending, this`waits, contexts[fd]
      ensures contexts[fd].Valid() && contexts[fd].events == old(contexts[fd].events) - {event}
      ensures forall e: Event :: e != event ==> contexts[fd].Context(e) == old(contexts[fd].Context(e))
      ensures waits == old(waits) - {Wait(fd, event)} && pending == |waits|
    {
      pending := pending - 1;
      contexts[fd].events := contexts[fd].events - {event};
      contexts[fd].SetContext(event, EMPTY);
      waits := waits - {Wait(fd, event)};
      assert waits.Keys == old(waits).Keys - {Wait(fd, event)};
    }

    /** delEvent: forgets the wait and queues nothing. */
    method DelEvent(fd: nat, event: Event, kernelOk: bool) returns (ok: bool)
      requires Valid()
      modifies this`pending, this`kernel, this`waits, contexts
      ensures Valid()
      ensures ok <==> old(Wait(fd, event) in waits) && kernelOk
      ensures waits == if ok then old(waits) - {Wait(fd, event)} else old(waits)
    {
      ArmedIsWaiting(fd, event);
      if |contexts| <= fd || event !in contexts[fd].events { return false; }
      var ctx := contexts[fd];
      assert ContextOk(ctx, fd, kernel, waits);
      var left := ctx.events - {event};
      var rt := EpollCtl(if left != {} then CtlMod else CtlDel, fd, left, kernelOk);
      if rt != 0 { return false; }
      Forget(fd, event);
      OthersKept(fd);
      ok := true;
    }

    /** Triggers one armed bit of a context whose kernel entry is already reduced to `left`. */
    method Fire(fd: nat, event: Event)
      requires fd < |contexts| && contexts[fd].Valid() && event in contexts[fd].events
      requires Wait(fd, event) in waits
      requires waits[Wait(fd, event)] == TaskOf(contexts[fd].Context(event)) && pending == |waits|
      modifies this`pending, this`queue, this`waits, contexts[fd]
      ensures contexts[fd].Valid() && contexts[fd].events == old(contexts[fd].events) - {event}
      ensures forall e: Event :: e != event ==> contexts[fd].Context(e) == old(contexts[fd].Context(e))
      ensures queue == old(queue) + [Entry(old(waits)[Wait(fd, event)], -1)]
      ensures waits == old(waits) - {Wait(fd, event)} && pending == |waits|
    {
      var task := contexts[fd].TriggerEvent(event);
      queue := queue + [Entry(task, -1)];
      pending := pending - 1;
      waits := waits - {Wait(fd, event)};
      assert waits.Keys == old(waits).Keys - {Wait(fd, event)};
    }

    /** cancelEvent: triggers the wait once if it is armed. */
    method CancelEvent(fd: nat, event: Event, kernelOk: bool) returns (ok: bool)
      requires Valid()
      modifies this`pending, this`queue, this`kernel, this`waits, contexts
      ensures Valid()
      ensures ok <==> old(Wait(fd, event) in waits) && kernelOk
      ensures !ok ==> waits == old(waits) && queue == old(queue)
      ensures ok ==> queue == old(queue) + [Entry(old(waits)[Wait(fd, event)], -1)]
                     && waits == old(waits) - {Wait(fd, event)}
      ensures ok ==> var ws := Cancelled(old(waits), Wait(fd, event));
                     && queue == old(queue) + Wakeups(old(waits), ws)
                     && waits == old(waits) - set w | w in ws
    {
      ArmedIsWaiting(fd, event);
      if |contexts| <= fd || event !in contexts[fd].events { return false; }
      var ctx := contexts[fd];
      assert ContextOk(ctx, fd, kernel, waits);
      var left := ctx.events - {event};
      var rt := EpollCtl(if left != {} then CtlMod else CtlDel, fd, left, kernelOk);
      if rt != 0 { return false; }
      Fire(fd, event);
      OthersKept(fd);
      CancelledOne(old(waits), Wait(fd, event));
      ok := true;
    }

    /** One of the two guarded triggers of a dispatch. */
    method FireIf(fd: nat, event: Event, events: set<Event>)
      requires fd < |contexts| && contexts[fd].Valid() && Hit(event, events) <= contexts[fd].events
      requires event in events ==>
                 Wait(fd, event) in waits
                 && waits[Wait(fd, event)] == TaskOf(contexts[fd].Context(event))
      requires pending == |waits|
      modifies this`pending, this`queue, this`waits, contexts[fd]
      ensures contexts[fd].Valid()
      ensures contexts[fd].events == old(contexts[fd].events) - Hit(event, events)
      ensures forall e: Event :: e != event || event !in events ==>
                contexts[fd].Context(e) == old(contexts[fd].Context(e))
      ensures pending == |waits|
      ensures queue == old(queue) + HitEntry(old(waits), fd, event, events)
      ensures waits == old(waits) - HitWait(fd, event, events)
    {
      if event in events { Fire(fd, event); }
    }

    /** Triggers the given armed bits of one context, READ before WRITE. */
    method FireChosen(fd: nat, events: set<Event>)
      requires fd < |contexts| && contexts[fd].Valid() && events <= contexts[fd].events
      requires forall e: Event :: e in contexts[fd].events ==>
                 Wait(fd, e) in waits && waits[Wait(fd, e)] == TaskOf(contexts[fd].Context(e))
      requires pending == |waits|
      modifies this`pending, this`queue, this`waits, contexts[fd]
      ensures contexts[fd].Valid() && contexts[fd].events == old(contexts[fd].events) - events
      ensures forall e: Event :: e !in events ==> contexts[fd].Context(e) == old(contexts[fd].Context(e))
      ensures pending == |waits|
      ensures var ws := Chosen(old(waits), fd, events);
              && queue == old(queue) + Wakeups(old(waits), ws)
              && waits == old(waits) - set w | w in ws
    {
      ghost var before, armed, q := waits, contexts[fd].events, queue;
      FireIf(fd, READ, events);
      ghost var es := HitEntry(waits, fd, WRITE, events);
      FireIf(fd, WRITE, events);
      ChosenArmed(before, fd, events);
      TwoSteps(before, HitWait(fd, READ, events), HitWait(fd, WRITE, events),
               armed, Hit(READ, events), Hit(WRITE, events),
               q, HitEntry(before, fd, READ, events), es);
      TwoEvents(events);
    }

    /** cancelAll: triggers every armed bit of the descriptor once. */
    method CancelAll(fd: nat, kernelOk: bool) returns (ok: bool)
      requires Valid()
      modifies this`pending, this`queue, this`kernel, this`waits, contexts
      ensures Valid()
      ensures ok <==> (exists e: Event :: Wait(fd, e) in old(waits)) && kernelOk
      ensures !ok ==> waits == old(waits) && queue == old(queue)
      ensures ok ==> var ws := Chosen(old(waits), fd, {READ, WRITE});
                     && queue == old(queue) + Wakeups(old(waits), ws)
                     && waits == old(waits) - set w | w in ws
      ensures ok ==> forall e: Event :: Wait(fd, e) !in waits
      ensures ok ==> forall w: Wait :: w.fd != fd ==> (w in waits <==> w in old(waits))
      ensures ok ==> queue == old(queue)
                     + ((if Wait(fd, READ) in old(waits) then [Entry(old(waits)[Wait(fd, READ)], -1)] else [])
                        + (if Wait(fd, WRITE) in old(waits) then [Entry(old(waits)[Wait(fd, WRITE)], -1)] else []))
    {
      if |contexts| <= fd { return false; }
      var ctx := contexts[fd];
      assert ContextOk(ctx, fd, kernel, waits);
      if ctx.events == {} { return false; }
      var rt := EpollCtl(CtlDel, fd, {}, kernelOk);
      if rt != 0 { return false; }
      DispatchAll(waits, fd);
      ChosenSame(waits, fd, ctx.events);
      FireChosen(fd, ctx.events);
      OthersKept(fd);
      ok := true;
    }

    /** The dispatch, by the events it works out. */
    method Dispatch(fd: nat, flags: set<PollFlag>, kernelOk: bool) returns (outcome: Outcome)
      requires Valid() && fd < |contexts|
      modifies this`pending, this`queue, this`kernel, this`waits, contexts
      ensures outcome != AssertFailed ==> Valid()
      ensures outcome in {Skipped, KernelFailed} ==> waits == old(waits) && queue == old(queue)
      ensures var hit := RealEvents(flags, old(contexts[fd].events));
              var armed := old(contexts[fd].events);
              && (outcome == Skipped <==> armed * hit == {})
              && (outcome == KernelFailed <==> armed * hit != {} && !kernelOk)
              && (outcome == AssertFailed <==> armed * hit != {} && kernelOk && !(hit <= armed))
              && (outcome == Dispatched ==>
                    var ws := Chosen(old(waits), fd, hit);
                    && queue == old(queue) + Wakeups(old(waits), ws)
                    && waits == old(waits) - set w | w in ws)
    {
      var ctx := contexts[fd];
      assert ContextOk(ctx, fd, kernel, waits);
      var hit := RealEvents(flags, ctx.events);
      if ctx.events * hit == {} { return Skipped; }
      var left := ctx.events - hit;
      var rt := EpollCtl(if left != {} then CtlMod else CtlDel, fd, left, kernelOk);
      if rt != 0 { return KernelFailed; }
      // triggerEvent asserts that the bit it is given is armed.
      if !(hit <= ctx.events) { return AssertFailed; }
      FireChosen(fd, hit);
      OthersKept(fd);
      outcome := Dispatched;
    }

    /**
     The body of idle's loop over delivered events: an armed event is hit by its own flag, by an error and by a
     hang-up, and the process aborts when a flag names an event that is not armed beside one that is hit.
     */
    method HandleReady(fd: nat, flags: set<PollFlag>, kernelOk: bool) returns (outcome: Outcome)
      requires Valid() && fd < |contexts|
      modifies this`pending, this`queue, this`kernel, this`waits, contexts
      ensures outcome != AssertFailed ==> Valid()
      ensures outcome in {Skipped, KernelFailed} ==> waits == old(waits) && queue == old(queue)
      ensures var failed := PollErr in flags || PollHup in flags;
              var read := Wait(fd, READ) in old(waits) && (PollIn in flags || failed);
              var write := Wait(fd, WRITE) in old(waits) && (PollOut in flags || failed);
              var stray := (PollIn in flags && Wait(fd, READ) !in old(waits))
                           || (PollOut in flags && Wait(fd, WRITE) !in old(waits));
              && (outcome == Skipped <==> !read && !write)
              && (outcome == KernelFailed <==> (read || write) && !kernelOk)
              && (outcome == AssertFailed <==> (read || write) && kernelOk && stray)
              && (outcome == Dispatched ==>
                    && waits == old(waits) - ((if read then {Wait(fd, READ)} else {})
                                              + (if write then {Wait(fd, WRITE)} else {}))
                    && queue == old(queue)
                       + ((if read then [Entry(old(waits)[Wait(fd, READ)], -1)] else [])
                          + (if write then [Entry(old(waits)[Wait(fd, WRITE)], -1)] else [])))
    {
      ArmedIsWaiting(fd, READ);
      ArmedIsWaiting(fd, WRITE);
      DispatchMeans(waits, fd, flags, contexts[fd].events);
      outcome := Dispatch(fd, flags, kernelOk);
    }
  }

  /** The events that a delivery stands for: errors and hang-ups wake whatever is armed. */
  function RealEvents(flags: set<PollFlag>, armed: set<Event>): set<Event> {
    var failed := PollErr in flags || PollHup in flags;
    (if PollIn in flags || (failed && READ in armed) then {READ} else {})
    + (if PollOut in flags || (failed && WRITE in armed) then {WRITE} else {})
  }

  /** What the tests of the dispatch come to, event by event. */
  lemma RealMeans(flags: set<PollFlag>, armed: set<Event>, hit: set<Event>)
    requires hit == RealEvents(flags, armed)
    ensures var failed := PollErr in flags || PollHup in flags;
            && (READ in hit <==> PollIn in flags || (failed && READ in armed))
            && (WRITE in hit <==> PollOut in flags || (failed && WRITE in armed))
            && (armed * hit == {} <==> !(READ in armed && READ in hit) && !(WRITE in armed && WRITE in hit))
            && (hit <= armed <==> (READ in hit ==> READ in armed) && (WRITE in hit ==> WRITE in armed))
  {
    TwoEvents(armed * hit);
    TwoEvents(hit);
    assert READ in armed * hit <==> READ in armed && READ in hit;
    assert WRITE in armed * hit <==> WRITE in armed && WRITE in hit;
  }

  /** All that is armed of one descriptor, READ before WRITE. */
  lemma DispatchAll(waits: map<Wait, Task>, fd: nat)
    ensures Wakeups(waits, Chosen(waits, fd, {READ, WRITE}))
            == (if Wait(fd, READ) in waits then [Entry(waits[Wait(fd, READ)], -1)] else [])
               + (if Wait(fd, WRITE) in waits then [Entry(waits[Wait(fd, WRITE)], -1)] else [])
    ensures forall w :: w in Chosen(waits, fd, {READ, WRITE}) <==> w in waits && w.fd == fd
  {
    forall w | w in waits && w.fd == fd ensures w in Chosen(waits, fd, {READ, WRITE}) {
      assert w.event == READ || w.event == WRITE;
    }
  }

  lemma ChosenSame(waits: map<Wait, Task>, fd: nat, events: set<Event>)
    requires forall e: Event :: Wait(fd, e) in waits ==> e in events
    ensures Chosen(waits, fd, events) == Chosen(waits, fd, {READ, WRITE})
  {
  }

  /** And what is dispatched then. */
  lemma DispatchMeans(waits: map<Wait, Task>, fd: nat, flags: set<PollFlag>, armed: set<Event>)
    requires READ in armed <==> Wait(fd, READ) in waits
    requires WRITE in armed <==> Wait(fd, WRITE) in waits
    ensures var hit := RealEvents(flags, armed);
            var failed := PollErr in flags || PollHup in flags;
            var read := Wait(fd, READ) in waits && (PollIn in flags || failed);
            var write := Wait(fd, WRITE) in waits && (PollOut in flags || failed);
            && (armed * hit == {} <==> !read && !write)
            && (hit <= armed <==> (PollIn in flags ==> Wait(fd, READ) in waits)
                                  && (PollOut in flags ==> Wait(fd, WRITE) in waits))
            && (hit <= armed ==>
                  && (set w | w in Chosen(waits, fd, hit))
                     == (if read then {Wait(fd, READ)} else {}) + (if write then {Wait(fd, WRITE)} else {})
                  && Wakeups(waits, Chosen(waits, fd, hit))
                     == (if read then [Entry(waits[Wait(fd, READ)], -1)] else [])
                        + (if write then [Entry(waits[Wait(fd, WRITE)], -1)] else []))
  {
    var hit := RealEvents(flags, armed);
    RealMeans(flags, armed, hit);
    if hit <= armed {
      forall e: Event | e in hit ensures Wait(fd, e) in waits { assert e == READ || e == WRITE; }
      ChosenArmed(waits, fd, hit);
    }
  }

  /**
   A delivery aborts the process exactly when, of the plain readiness flags, some name an armed
   event and some name one that is no longer armed, as after a cancelEvent between epoll_wait
   and the lock.
   */
  lemma AbortExactly(flags: set<PollFlag>, armed: set<Event>)
    ensures var hit := RealEvents(flags, armed);
            var failed := PollErr in flags || PollHup in flags;
            armed * hit != {} && !(hit <= armed) <==>
            || (READ in armed && WRITE !in armed && PollOut in flags && (PollIn in flags || failed))
            || (WRITE in armed && READ !in armed && PollIn in flags && (PollOut in flags || failed))
  {
    var hit := RealEvents(flags, armed);
    assert READ in armed * hit || WRITE in armed * hit <==> armed * hit != {} by {
      TwoEvents(armed * hit);
    }
    assert hit <= armed <==> (READ in hit ==> READ in armed) && (WRITE in hit ==> WRITE in armed) by {
      TwoEvents(hit);
    }
  }

  /** Both events of descriptor 0 armed, each by a fiber. */
  method BothArmed(reader: FiberId, writer: FiberId) returns (io: IoManager)
    ensures fresh(io) && (forall c :: c in io.contexts ==> fresh(c)) && io.Valid()
    ensures Wait(0, READ) in io.waits && Wait(0, WRITE) in io.waits
  {
    io := new IoManager();
    assert forall i :: 0 <= i < |io.contexts| ==> io.contexts[i] in io.contexts;
    var read := io.AddEvent(0, READ, None, reader, true);
    var write := io.AddEvent(0, WRITE, None, writer, true);
  }

  /** So it does when both events were delivered and the WRITE wait is cancelled before they are handled. */
  method CancelledBeforeHandling(reader: FiberId, writer: FiberId) returns (outcome: Outcome)
    ensures outcome == AssertFailed
  {
    var io := BothArmed(reader, writer);
    assert forall i :: 0 <= i < |io.contexts| ==> io.contexts[i] in io.contexts;
    var cancelled := io.CancelEvent(0, WRITE, true);
    io.ArmedIsWaiting(0, READ);
    io.ArmedIsWaiting(0, WRITE);
    outcome := io.HandleReady(0, {PollIn, PollOut}, true);
  }

  // The share of one event in dispatching the armed events `events` of a descriptor.

  function Hit(event: Event, events: set<Event>): set<Event> {
    if event in events then {event} else {}
  }

  function HitWait(fd: nat, event: Event, events: set<Event>): set<Wait> {
    if event in events then {Wait(fd, event)} else {}
  }

  function HitEntry(waits: map<Wait, Task>, fd: nat, event: Event, events: set<Event>): seq<Entry>
    requires event in events ==> Wait(fd, event) in waits
  {
    if event in events then [Entry(waits[Wait(fd, event)], -1)] else []
  }

  lemma CancelledOne(waits: map<Wait, Task>, w: Wait)
    requires w in waits
    ensures Wakeups(waits, Cancelled(waits, w)) == [Entry(waits[w], -1)]
    ensures (set x | x in Cancelled(waits, w)) == {w}
  {
  }

  lemma TwoEvents(events: set<Event>)
    ensures events == Hit(READ, events) + Hit(WRITE, events)
  {
    forall e | e in events ensures e == READ || e == WRITE { }
  }

  lemma TwoSteps(waits: map<Wait, Task>, x: set<Wait>, y: set<Wait>,
                 armed: set<Event>, r: set<Event>, w: set<Event>,
                 q: seq<Entry>, a: seq<Entry>, b: seq<Entry>)
    ensures waits - x - y == waits - (x + y)
    ensures armed - r - w == armed - (r + w)
    ensures q + a + b == q + (a + b)
  {
  }

  /** What Chosen and Wakeups come to when all the given events are armed. */
  lemma ChosenArmed(waits: map<Wait, Task>, fd: nat, events: set<Event>)
    requires forall e: Event :: e in events ==> Wait(fd, e) in waits
    ensures var ws := Chosen(waits, fd, events);
            && Wakeups(waits, ws) ==
               HitEntry(waits, fd, READ, events) + HitEntry(waits, fd, WRITE, events)
            && (set w | w in ws) == HitWait(fd, READ, events) + HitWait(fd, WRITE, events)
  {
  }

}
