/** The scheduler's queue operations, in the form the scheduler threads run them. */
module Scheduler {
  import opened Options
  import opened Reactor

  /** Whether an entry is for some other thread only. */
  predicate Foreign(e: Entry, tid: int) {
    e.thread != -1 && e.thread != tid
  }

  class Scheduler {
    var queue: seq<Entry>                     // m_fibers
    var fibers: map<FiberId, FiberState>
    var active: int                           // m_activeThreadCount

    constructor ()
      ensures queue == [] && fibers == map[] && active == 0
    {
      queue, fibers, active := [], map[], 0;
    }

    /** schedule of one fiber or callback; None is an empty fiber pointer or function. */
    method Schedule(task: Option<Task>, thread: int) returns (needTickle: bool)
      modifies this`queue
      ensures queue == old(queue) + (if task.Some? then [Entry(task.value, thread)] else [])
      ensures needTickle <==> old(queue) == []
    {
      needTickle := queue == [];
      if task.Some? {
        queue := queue + [Entry(task.value, thread)];
      }
    }

    /** schedule(begin, end): the entries are swapped out of the caller's vector. */
    method ScheduleBatch(cbs: array<Option<Task>>) returns (needTickle: bool)
      modifies this`queue, cbs
      ensures queue == old(queue) + Submitted(old(cbs[..]))
      ensures forall i :: 0 <= i < cbs.Length ==> cbs[i] == None
      ensures needTickle <==> old(queue) == [] && cbs.Length > 0
    {
      needTickle := false;
      var i := 0;
      while i < cbs.Length
        invariant 0 <= i <= cbs.Length
        invariant queue == old(queue) + Submitted(old(cbs[..])[..i])
        invariant forall j :: 0 <= j < i ==> cbs[j] == None
        invariant forall j :: i <= j < cbs.Length ==> cbs[j] == old(cbs[j])
        invariant needTickle <==> old(queue) == [] && i > 0
      {
        var task := cbs[i];
        cbs[i] := None;
        assert old(cbs[..])[..i + 1] == old(cbs[..])[..i] + [task];
        SubmittedSnoc(old(cbs[..])[..i], task);
        var empty := Schedule(task, -1);
        needTickle := empty || needTickle;
        i := i + 1;
      }
      assert old(cbs[..])[..i] == old(cbs[..]);
    }

    /**
     The scan at the top of run: takes the first entry this thread may execute, skipping
     entries for other threads and fibers that are still EXEC, and says whether other threads
     should be told that work is left.
     */
    method TakeTask(tid: nat) returns (taken: Option<Task>, tickleMe: bool, ghost at: nat)
      modifies this`queue, this`active
      ensures at == FirstEligible(old(queue), fibers, tid) && (taken == None <==> at == |old(queue)|)
      ensures forall j :: 0 <= j < at ==>
        (old(queue)[j].thread != -1 && old(queue)[j].thread != tid)
        || (exists f :: f in fibers && fibers[f] == EXEC && old(queue)[j].task == RunFiber(f))
      ensures taken.Some? ==> old(queue)[at].thread == -1 || old(queue)[at].thread == tid
      ensures taken.Some? ==> forall f :: f in fibers && fibers[f] == EXEC ==> old(queue)[at].task != RunFiber(f)
      ensures taken.Some? ==> taken.value == old(queue)[at].task && active == old(active) + 1
      ensures taken == None ==> queue == old(queue) && active == old(active)
      ensures taken.Some? ==> queue == old(queue)[..at] + old(queue)[at + 1..]
      ensures tickleMe <==>
        at + 1 < |old(queue)| || exists j :: 0 <= j < at && old(queue)[j].thread != -1 && old(queue)[j].thread != tid
    {
      taken, tickleMe := None, false;
      var it := 0;
      while it < |queue|
        invariant 0 <= it <= |queue| && queue == old(queue) && active == old(active)
        invariant forall j :: 0 <= j < it ==> !Eligible(queue[j], fibers, tid)
        invariant tickleMe <==> exists j :: 0 <= j < it && Foreign(queue[j], tid)
        invariant taken == None
      {
        var e := queue[it];
        if e.thread != -1 && e.thread != tid {
          it := it + 1;
          tickleMe := true;
          assert Foreign(queue[it - 1], tid);
          continue;
        }
        if e.task.RunFiber? && e.task.fiber in fibers && fibers[e.task.fiber] == EXEC {
          it := it + 1;
          continue;
        }
        taken := Some(e.task);
        queue := queue[..it] + queue[it + 1..];
        active := active + 1;
        FirstIs(old(queue), fibers, tid, it);
        break;
      }
      if taken == None { FirstIs(old(queue), fibers, tid, it); }
      tickleMe, at := tickleMe || it != |queue|, it;
    }
  }

  /** The queue entries a batch adds: its non-empty members, for any thread. */
  function Submitted(tasks: seq<Option<Task>>): (es: seq<Entry>)
    ensures |es| <= |tasks|
  {
    if tasks == [] then []
    else (if tasks[0].Some? then [Entry(tasks[0].value, -1)] else []) + Submitted(tasks[1..])
  }

  lemma SubmittedSnoc(tasks: seq<Option<Task>>, task: Option<Task>)
    ensures Submitted(tasks + [task]) ==
            Submitted(tasks) + (if task.Some? then [Entry(task.value, -1)] else [])
  {
    if tasks == [] {
      assert tasks + [task] == [task] && [task][1..] == [];
    } else {
      assert (tasks + [task])[1..] == tasks[1..] + [task];
      SubmittedSnoc(tasks[1..], task);
    }
  }

  /** FirstEligible is determined by its contract. */
  lemma FirstIs(queue: seq<Entry>, fibers: map<FiberId, FiberState>, tid: nat, i: nat)
    requires i <= |queue|
    requires forall j :: 0 <= j < i ==> !Eligible(queue[j], fibers, tid)
    requires i < |queue| ==> Eligible(queue[i], fibers, tid)
    ensures FirstEligible(queue, fibers, tid) == i
  {
  }

  /** The taken entry is the earliest eligible one and the others keep their order. */
  lemma TakeKeepsOrder(queue: seq<Entry>, fibers: map<FiberId, FiberState>, tid: nat, p: nat, q: nat)
    requires p < q < |queue| && FirstEligible(queue, fibers, tid) !in {p, q}
    ensures var i := FirstEligible(queue, fibers, tid);
            i < |queue| ==>
              var rest := queue[..i] + queue[i + 1..];
              var p' := if p < i then p else p - 1;
              var q' := if q < i then q else q - 1;
              p' < q' && rest[p'] == queue[p] && rest[q'] == queue[q]
  {
  }

}
