/** Whole runs of the timer manager: what is delivered, and that no wakeup is lost. */
module TimerRuns {
  import opened Options
  import opened Timers

  /**
   One call on the manager; timers are named by their order of creation.  A new timer is given an address no
   other has; a call that would reuse one cannot happen, and is passed over.
   */
  datatype Call =
    | Add(id: nat, ms: nat, cb: nat, recurring: bool)
    | CancelCall(k: nat)
    | RefreshCall(k: nat)
    | ResetCall(k: nat, ms: nat, fromNow: bool)
    | NextTimer
    | Expire(probe: nat)

  /** One call and the clock reading it takes. */
  datatype Played = Played(call: Call, now: nat)

  /** Where, from i on, the first deadline is that is not due; the end on rollover. */
  ghost function DueEnd(ds: seq<nat>, now: nat, rolled: bool, i: nat): (n: nat)
    requires i <= |ds|
    ensures i <= n <= |ds|
    decreases |ds| - i
  {
    if i == |ds| || (!rolled && now < ds[i]) then i else DueEnd(ds, now, rolled, i + 1)
  }

  lemma {:induction false} DueEndIs(ds: seq<nat>, now: nat, rolled: bool, i: nat, n: nat)
    requires i <= n <= |ds| && forall j :: 0 <= j < |ds| ==> (j < n <==> rolled || ds[j] <= now)
    ensures DueEnd(ds, now, rolled, i) == n
    decreases |ds| - i
  {
    if i < n { DueEndIs(ds, now, rolled, i + 1, n); }
  }

  class Run {
    const m: TimerManager
    var created: seq<Timer>
    ghost var log: seq<Timer>                     // deliveries, in order
    ghost var cancelled: map<Timer, nat>          // log length when cancel last returned true
    ghost var played: seq<Played>

    ghost predicate Valid()
      reads this, m, m.all
    {
      && m.Valid()
      && (forall t :: t in created ==> t in m.all)
      && (forall t :: t in log ==> t in m.all && (t.recurring || t.cb == None))
      && (forall t :: t in cancelled ==> t in m.all && t.cb == None && cancelled[t] <= |log|)
    }

    /** A one-shot timer is delivered at most once. */
    ghost predicate OneShotsOnce()
      reads this
    {
      forall i, j :: 0 <= i < j < |log| && log[i] == log[j] ==> log[i].recurring
    }

    /** Nothing is delivered after its cancel returned true. */
    ghost predicate CancelFinal()
      reads this
    {
      forall t, i :: t in cancelled && cancelled[t] <= i < |log| ==> log[i] != t
    }

    ghost predicate Sound()
      reads this, m, m.all
    {
      Valid() && OneShotsOnce() && CancelFinal()
    }

    constructor (now: nat)
      ensures Sound() && m.WakeSafe()
      ensures fresh(m) && m.all == {} && created == [] && log == [] && cancelled == map[] && played == []
      ensures m.clock == now && m.previousTime == now && m.used == {}
    {
      m := new TimerManager(now);
      created, log, cancelled, played := [], [], map[], [];
    }

    /**
     What keeps wake-ups safe: refresh, which reads the clock under the lock, reads no earlier than what was
     read before, and an expiry finds no rollover.  Nothing is asked of the other calls' readings.
     */
    ghost predicate Timely(call: Call, now: nat)
      reads this, m
    {
      && (call.RefreshCall? ==> m.clock <= now)
      && (call.Expire? ==> !RolledOver(now, m.previousTime))
    }

    /** What any call keeps, and what it does to the clock readings the manager goes by. */
    twostate predicate Kept(call: Call, now: nat)
      reads this, m, m.all
    {
      && Sound() && old(m.all) <= m.all && m.used == old(m.used) + (if call.Add? then {call.id} else {})
      && (old(m.WakeSafe()) && old(Timely(call, now)) ==> m.WakeSafe())
      && (m.clock == old(m.clock) || m.clock == now)
      && (m.previousTime == old(m.previousTime) || (call.Expire? && m.previousTime == now))
    }

    /** Nothing is delivered or cancelled. */
    twostate predicate Quiet()
      reads this
    {
      log == old(log) && cancelled == old(cancelled) && created == old(created) && played == old(played)
    }

    /** The deadlines in the set, in order. */
    ghost function Deadlines(): (ds: seq<nat>)
      reads m, m.timers
      ensures |ds| == |m.timers| && forall j :: 0 <= j < |ds| ==> ds[j] == m.timers[j].next
    {
      seq(|m.timers|, j requires 0 <= j < |m.timers| reads m, m.timers => m.timers[j].next)
    }

    /** What an expiry delivers: the timers of the set that are due, or all of them on rollover. */
    ghost function DueNow(now: nat): (due: seq<Timer>)
      requires Sound()
      reads this, m, m.all
    {
      m.timers[..DueEnd(Deadlines(), now, RolledOver(now, m.previousTime), 0)]
    }

    /** The expiry itself, and what there is to know of the timers it delivers. */
    method TakeDue(now: nat, probe: nat) returns (ghost fired: seq<Timer>)
      requires Sound()
      modifies m, m.all
      ensures m.Valid() && m.all == old(m.all) && m.used == old(m.used) && fired == old(DueNow(now))
      ensures forall i, j :: 0 <= i < j < |fired| ==> fired[i] != fired[j]
      ensures forall t :: t in fired ==> t in m.all && old(t.cb).Some? && (t.recurring || t.cb == None)
      ensures forall t :: t in m.all && old(t.cb) == None ==> t.cb == None
      ensures old(m.WakeSafe()) && !RolledOver(now, old(m.previousTime)) ==> m.WakeSafe()
      ensures (m.clock == old(m.clock) || m.clock == now)
      ensures (m.previousTime == old(m.previousTime) || m.previousTime == now)
    {
      ghost var was, ds, rolled := m.timers, Deadlines(), RolledOver(now, m.previousTime);
      var cbs := m.ListExpired(now, probe);
      DueEndIs(ds, now, rolled, 0, |cbs|);
      fired := was[..|cbs|];
    }

    method ExpireStep(now: nat, probe: nat)
      requires Sound()
      modifies this`log, m, m.all
      ensures Kept(Expire(probe), now) && m.all == old(m.all) && log == old(log) + old(DueNow(now))
    {
      ghost var fired := TakeDue(now, probe);
      log := log + fired;
    }

    method AddStep(now: nat, id: nat, ms: nat, cb: nat, recurring: bool)
      requires Sound() && id !in m.used
      modifies this`created, m
      ensures Kept(Add(id, ms, cb, recurring), now) && fresh(m.all - old(m.all))
      ensures log == old(log) && cancelled == old(cancelled) && played == old(played)
      ensures |created| == |old(created)| + 1 && created[..|old(created)|] == old(created)
      ensures var t := created[|old(created)|];
        t.id == id && t.ms == ms && t.recurring == recurring && t.next == now + ms && t.cb == Some(cb)
    {
      var t, notified := m.AddTimer(now, id, ms, cb, recurring);
      created := created + [t];
    }

    /** A cancel that finds its timer alive is recorded; after any cancel the timer has no callback. */
    method CancelStep(now: nat, k: nat)
      requires Sound() && k < |created|
      modifies this`cancelled, m, m.all
      ensures Kept(CancelCall(k), now) && m.all == old(m.all) && created[k].cb == None
      ensures cancelled == if old(created[k].cb.Some?) then old(cancelled)[created[k] := |log|] else old(cancelled)
      ensures log == old(log) && created == old(created) && played == old(played)
    {
      var t := created[k];
      var ok := m.Cancel(t);
      if ok { cancelled := cancelled[t := |log|]; }
    }

    /** refresh, reset and getNextTimer deliver nothing. */
    method AdjustStep(now: nat, call: Call)
      requires Sound()
      requires call.RefreshCall? || call.ResetCall? || call.NextTimer?
      requires call.RefreshCall? || call.ResetCall? ==> call.k < |created|
      modifies m, m.all
      ensures Kept(call, now) && m.all == old(m.all) && Quiet()
    {
      match call
      case RefreshCall(k) => var ok := m.Refresh(created[k], now);
      case ResetCall(k, ms, fromNow) => var ok, notified := m.Reset(created[k], ms, fromNow, now);
      case NextTimer => var wait := m.GetNextTimer(now);
    }

    method Step(call: Call, now: nat)
      requires Sound()
      modifies this, m, m.all
      ensures Kept(call, now) && fresh(m.all - old(m.all)) && played == old(played) + [Played(call, now)]
      ensures log == old(log) + if call.Expire? then old(DueNow(now)) else []
      ensures cancelled == if call.CancelCall? && call.k < |old(created)| && old(created[call.k].cb.Some?)
                           then old(cancelled)[old(created)[call.k] := |log|] else old(cancelled)
      ensures old(created) <= created
      ensures |created| == |old(created)| + if call.Add? && call.id !in old(m.used) then 1 else 0
      ensures call.Add? && call.id !in old(m.used) ==>
        var t := created[|old(created)|];
        t.id == call.id && t.ms == call.ms && t.recurring == call.recurring && t.cb == Some(call.cb)
        && t.next == now + call.ms
    {
      match call {
        case Add(id, ms, cb, recurring) => if id !in m.used { AddStep(now, id, ms, cb, recurring); }
        case CancelCall(k) => if k < |created| { CancelStep(now, k); }
        case RefreshCall(k) => if k < |created| { AdjustStep(now, call); }
        case ResetCall(k, _, _) => if k < |created| { AdjustStep(now, call); }
        case NextTimer => AdjustStep(now, call);
        case Expire(probe) => ExpireStep(now, probe);
      }
      played := played + [Played(call, now)];
    }
  }

  /**
   Every refresh reads no earlier than the start and every call before it, and no expiry finds a rollover since
   the start or an earlier expiry.
   */
  predicate AllTimely(start: nat, calls: seq<Call>, clock: seq<nat>)
    requires |clock| == |calls|
  {
    && (forall i :: 0 <= i < |calls| && calls[i].RefreshCall? ==> start <= clock[i])
    && (forall i, j :: 0 <= j < i < |calls| && calls[i].RefreshCall? ==> clock[j] <= clock[i])
    && (forall i :: 0 <= i < |calls| && calls[i].Expire? ==> !RolledOver(clock[i], start))
    && (forall i, j :: 0 <= j < i < |calls| && calls[i].Expire? && calls[j].Expire? ==>
          !RolledOver(clock[i], clock[j]))
  }

  /** A clock that never goes back is timely in any case. */
  lemma MonotoneIsTimely(start: nat, calls: seq<Call>, clock: seq<nat>)
    requires |clock| == |calls| && forall i :: 0 <= i < |clock| ==> start <= clock[i]
    requires forall i, j :: 0 <= i <= j < |clock| ==> clock[i] <= clock[j]
    ensures AllTimely(start, calls, clock)
  {
  }

  /** The calls with the readings they take. */
  function Paired(calls: seq<Call>, clock: seq<nat>): seq<Played>
    requires |clock| == |calls|
  {
    seq(|calls|, i requires 0 <= i < |calls| => Played(calls[i], clock[i]))
  }

  /** The addresses of the timers the first n calls make: a call that would reuse one makes none. */
  function Made(calls: seq<Call>, n: nat): (ids: seq<nat>)
    requires n <= |calls|
  {
    if n == 0 then []
    else
      var before := Made(calls, n - 1);
      if calls[n - 1].Add? && calls[n - 1].id !in before then before + [calls[n - 1].id] else before
  }

  ghost predicate CreatedAre(run: Run, ids: seq<nat>)
    reads run
  {
    |run.created| == |ids| && forall i :: 0 <= i < |ids| ==> run.created[i].id == ids[i]
  }

  /** What the manager goes by are the start and readings of calls already played, of expiries for the rollover. */
  ghost predicate GoesBy(run: Run, start: nat, calls: seq<Call>, clock: seq<nat>, n: nat)
    requires |clock| == |calls| && n <= |calls|
    reads run, run.m
  {
    && (run.m.clock == start || exists j :: 0 <= j < n && run.m.clock == clock[j])
    && (run.m.previousTime == start || exists j :: 0 <= j < n && calls[j].Expire? && run.m.previousTime == clock[j])
  }

  /** The first n calls have been played. */
  ghost predicate Through(run: Run, start: nat, calls: seq<Call>, clock: seq<nat>, n: nat)
    requires |clock| == |calls| && n <= |calls|
    reads run, run.m, run.m.all
  {
    && run.Sound() && run.played == Paired(calls, clock)[..n] && GoesBy(run, start, calls, clock, n)
    && CreatedAre(run, Made(calls, n)) && (forall x :: x in run.m.used <==> x in Made(calls, n))
    && (AllTimely(start, calls, clock) ==> run.m.WakeSafe())
  }

  lemma PairedNext(calls: seq<Call>, clock: seq<nat>, n: nat)
    requires |clock| == |calls| && n < |calls|
    ensures Paired(calls, clock)[..n + 1] == Paired(calls, clock)[..n] + [Played(calls[n], clock[n])]
  {
  }

  lemma CreatedNext(run: Run, was: seq<Timer>, calls: seq<Call>, n: nat)
    requires n < |calls| && |was| == |Made(calls, n)| && was <= run.created
    requires forall i :: 0 <= i < |was| ==> was[i].id == Made(calls, n)[i]
    requires |run.created| == |was| + if calls[n].Add? && calls[n].id !in Made(calls, n) then 1 else 0
    requires |run.created| > |was| ==> calls[n].Add? && run.created[|was|].id == calls[n].id
    ensures CreatedAre(run, Made(calls, n + 1))
  {
  }

  /** One call of a sequence. */
  method PlayNext(run: Run, start: nat, calls: seq<Call>, clock: seq<nat>, n: nat)
    requires |clock| == |calls| && n < |calls| && Through(run, start, calls, clock, n)
    modifies run, run.m, run.m.all
    ensures fresh(run.m.all - old(run.m.all)) && Through(run, start, calls, clock, n + 1)
  {
    TimelyNow(run, start, calls, clock, n);
    run.Step(calls[n], clock[n]);
    GoesOn(run, start, calls, clock, n, old(run.m.clock), old(run.m.previousTime));
    PairedNext(calls, clock, n);
    CreatedNext(run, old(run.created), calls, n);
  }

  lemma TimelyNow(run: Run, start: nat, calls: seq<Call>, clock: seq<nat>, n: nat)
    requires |clock| == |calls| && n < |calls| && GoesBy(run, start, calls, clock, n)
    ensures AllTimely(start, calls, clock) ==> run.Timely(calls[n], clock[n])
  {
  }

  lemma GoesOn(run: Run, start: nat, calls: seq<Call>, clock: seq<nat>, n: nat, wasClock: nat, wasTime: nat)
    requires |clock| == |calls| && n < |calls|
    requires wasClock == start || exists j :: 0 <= j < n && wasClock == clock[j]
    requires wasTime == start || exists j :: 0 <= j < n && calls[j].Expire? && wasTime == clock[j]
    requires run.m.clock == wasClock || run.m.clock == clock[n]
    requires run.m.previousTime == wasTime || (calls[n].Expire? && run.m.previousTime == clock[n])
    ensures GoesBy(run, start, calls, clock, n + 1)
  {
  }

  /**
   Any sequence of calls under any readings, played one after the other, delivers one-shots at most once and
   nothing after its cancel; and no wakeup is ever lost if the readings are timely, whatever the order in which
   calls that read the clock before they take the lock come to take it.
   */
  method Play(start: nat, calls: seq<Call>, clock: seq<nat>) returns (run: Run)
    requires |clock| == |calls|
    ensures run.Sound() && run.played == Paired(calls, clock) && CreatedAre(run, Made(calls, |calls|))
    ensures AllTimely(start, calls, clock) ==> run.m.WakeSafe()
  {
    run := new Run(start);
    var i := 0;
    while i < |calls|
      invariant 0 <= i <= |calls| && fresh(run) && fresh(run.m) && fresh(run.m.all)
      invariant Through(run, start, calls, clock, i)
    {
      PlayNext(run, start, calls, clock, i);
      i := i + 1;
    }
    assert Paired(calls, clock)[..i] == Paired(calls, clock);
  }

  /** After the clock has gone back, refresh can lose a wake-up: the waiter was told 110, and the timer is due at 60. */
  method RefreshLoses() returns (m: TimerManager)
    ensures m.Valid() && !m.WakeSafe()
  {
    m := new TimerManager(100);
    var t, notified := m.AddTimer(100, 0, 10, 0, false);
    var wait := m.GetNextTimer(100);
    var ok := m.Refresh(t, 50);
  }

  /** And so can listExpiredCb, when it takes the clock to have rolled over and a timer is recurring. */
  method RolloverLoses() returns (m: TimerManager)
    ensures m.Valid() && !m.WakeSafe()
  {
    var start := 100 * ROLLOVER_MS;
    m := new TimerManager(start);
    var t, notified := m.AddTimer(start, 0, 1, 0, true);
    var wait := m.GetNextTimer(start);
    assert t in m.timers;
    var cbs := m.ListExpired(5, 0);
  }

}
