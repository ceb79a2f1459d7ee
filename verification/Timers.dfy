/**
 TimerManager: timers in a std::set ordered by (deadline, address), with the flag that
 suppresses repeated front-insertion notices.  The set is a sequence kept in comparator order
 and searched by comparator only, so a key changed while its timer is inside would be lost.
 Clock readings are arguments; deadlines are unbounded.
 */
module Timers {
  import opened Options

  const ROLLOVER_MS: nat := 60 * 60 * 1000
  const TWO_64: nat := 0x1_0000_0000_0000_0000

  class Timer {
    const id: nat                                 // the address, which breaks ties
    const recurring: bool
    var ms: nat
    var next: nat
    var cb: Option<nat>

    constructor (id: nat, ms: nat, cb: nat, recurring: bool, now: nat)
      ensures this.id == id && this.recurring == recurring
      ensures this.ms == ms && next == now + ms && this.cb == Some(cb)
    {
      this.id, this.recurring := id, recurring;
      this.ms, this.next, this.cb := ms, now + ms, Some(cb);
    }

    /** Comparator, against a key. */
    predicate Before(next: nat, id: nat)
      reads this
    {
      this.next < next || (this.next == next && this.id < id)
    }
  }

  /** Clock rollover: now lies more than an hour before the previous reading, in uint64 terms. */
  predicate RolledOver(now: nat, previous: nat) {
    now < previous && now < (previous - ROLLOVER_MS) % TWO_64
  }

  /** So it does: by more than 3600000 ms; or at all, where that much cannot be taken off the previous reading. */
  lemma RolledOverIff(now: nat, previous: nat)
    requires previous < 0x1_0000_0000_0000_0000
    ensures RolledOver(now, previous) <==> now < previous && (previous < 3_600_000 || now + 3_600_000 < previous)
  {
    if previous < 3_600_000 {
      assert (previous - ROLLOVER_MS) % TWO_64 == previous - ROLLOVER_MS + TWO_64;
    }
  }

  class TimerManager {
    var timers: seq<Timer>                        // m_timers
    var tickled: bool                             // m_tickled
    var previousTime: nat                         // m_previousTime
    var used: set<nat>                            // the addresses of those handed out
    ghost var all: set<Timer>                     // every timer handed out
    ghost var announced: Option<nat>              // deadline the last getNextTimer stood for
    ghost var clock: nat                          // latest clock reading a timer was built from

    ghost predicate Sorted()
      reads this, timers
    {
      forall i, j :: 0 <= i < j < |timers| ==> timers[i].Before(timers[j].next, timers[j].id)
    }

    /**
     The invariant while the timers of `out`, whose keys may be changing, are outside the set:
     every other timer is in the set exactly when it has a callback.
     */
    ghost predicate ValidExcept(out: set<Timer>)
      reads this, all
    {
      && (forall t :: t in timers ==> t in all && t !in out)
      && out <= all
      && Sorted()
      && previousTime <= clock
      && (forall t :: t in all && t !in out ==> (t in timers <==> t.cb.Some?))
      && (forall t :: t in all ==> t.ms <= t.next && t.next - t.ms <= clock && t.id in used)
      && (forall t, u :: t in all && u in all && t.id == u.id ==> t == u)
    }

    ghost predicate Valid()
      reads this, all
    {
      ValidExcept({})
    }

    /** No pending deadline comes before the one last announced, unless a notice is out. */
    ghost predicate WakeSafe()
      reads this, all
    {
      tickled || forall t :: t in all && t.cb.Some? ==> announced.Some? && announced.value <= t.next
    }

    /** WakeSafe as far as the timers in the set go. */
    ghost predicate SetSafe()
      reads this, timers
    {
      tickled || forall t :: t in timers ==> announced.Some? && announced.value <= t.next
    }

    constructor (now: nat)
      ensures Valid() && WakeSafe() && all == {} && used == {} && !tickled && previousTime == now && clock == now
      ensures timers == []
    {
      timers, tickled, previousTime, used := [], false, now, {};
      all, announced, clock := {}, None, now;
    }

    /** The set's lookup: the first position not before the key. */
    method LowerBound(next: nat, id: nat) returns (i: nat)
      requires Sorted()
      ensures i <= |timers|
      ensures forall j :: 0 <= j < i ==> timers[j].Before(next, id)
      ensures forall j :: i <= j < |timers| ==> !timers[j].Before(next, id)
    {
      i := 0;
      var hi := |timers|;
      while i < hi
        invariant 0 <= i <= hi <= |timers|
        invariant forall j :: 0 <= j < i ==> timers[j].Before(next, id)
        invariant forall j :: hi <= j < |timers| ==> !timers[j].Before(next, id)
      {
        var mid := (i + hi) / 2;
        if timers[mid].Before(next, id) { i := mid + 1; } else { hi := mid; }
      }
    }

    /** m_timers.find: a timer in the set is always found, by its key alone. */
    method Find(t: Timer) returns (i: nat)
      requires Valid() && t in all
      ensures if t in timers then i < |timers| && timers[i] == t else i == |timers|
    {
      i := LowerBound(t.next, t.id);
      if i < |timers| && (timers[i].next != t.next || timers[i].id != t.id) {
        i := |timers|;
      }
    }

    /** m_timers.insert of a timer that is not in the set; says whether it became the first. */
    method Insert(t: Timer, ghost out: set<Timer>) returns (first: bool)
      requires ValidExcept(out) && t in out && t.cb.Some?
      modifies this`timers
      ensures ValidExcept(out - {t})
      ensures first <==> forall u :: u in old(timers) ==> t.Before(u.next, u.id)
    {
      var i := LowerBound(t.next, t.id);
      timers := timers[..i] + [t] + timers[i..];
      first := i == 0;
      if first {
        forall u | u in old(timers) ensures t.Before(u.next, u.id) {
          var j :| 0 <= j < |old(timers)| && old(timers)[j] == u;
        }
      } else {
        assert old(timers)[0] in old(timers);
      }
    }

    /** Erases a timer from the set and only then changes its key. */
    method Rekey(t: Timer, ms: nat, next: nat)
      requires Valid() && t in timers && ms <= next && next - ms <= clock
      modifies this`timers, t`ms, t`next
      ensures ValidExcept({t}) && t.ms == ms && t.next == next
      ensures old(WakeSafe()) ==> SetSafe()
    {
      var i := Find(t);
      timers := timers[..i] + timers[i + 1..];
      t.ms, t.next := ms, next;
    }

    /** The private addTimer: inserts and issues the front notice unless one is out already. */
    method InsertAndNotify(t: Timer) returns (notified: bool)
      requires ValidExcept({t}) && t.cb.Some?
      modifies this`timers, this`tickled
      ensures Valid()
      ensures old(SetSafe()) ==> WakeSafe()
      ensures tickled <==> old(tickled) || notified
      ensures notified <==> !old(tickled) && forall u :: u in old(timers) ==> t.Before(u.next, u.id)
    {
      var first := Insert(t, {t});
      notified := first && !tickled;
      if notified { tickled := true; }
    }

    /** addTimer; `now` is the clock when the timer is built, and `id` the address it is given. */
    method AddTimer(now: nat, id: nat, ms: nat, cb: nat, recurring: bool) returns (t: Timer, notified: bool)
      requires Valid() && id !in used
      modifies this`timers, this`tickled, this`used, this`all, this`clock
      ensures Valid() && (old(WakeSafe()) ==> WakeSafe()) && fresh(t) && all == old(all) + {t}
      ensures t.id == id && t.recurring == recurring && t.ms == ms && t.next == now + ms && t.cb == Some(cb)
      ensures tickled <==> old(tickled) || notified
      ensures notified <==> !old(tickled) && forall u :: u in old(timers) ==> t.Before(u.next, u.id)
      ensures used == old(used) + {id}
      ensures clock == if now > old(clock) then now else old(clock)
    {
      t := new Timer(id, ms, cb, recurring, now);
      used := used + {id};
      all := all + {t};
      clock := if now > clock then now else clock;
      notified := InsertAndNotify(t);
    }

    /** Timer::cancel. */
    method Cancel(t: Timer) returns (ok: bool)
      requires Valid() && t in all
      modifies this`timers, t`cb
      ensures Valid() && (old(WakeSafe()) ==> WakeSafe())
      ensures ok <==> old(t.cb.Some?)
      ensures t.cb == None
    {
      if t.cb == None { return false; }
      var i := Find(t);
      t.cb := None;
      timers := timers[..i] + timers[i + 1..];
      ok := true;
    }

    /**
     Timer::refresh issues no notice, so it is safe exactly when the new deadline is not before
     the announced one; under a monotone clock it never is.
     */
    method Refresh(t: Timer, now: nat) returns (ok: bool)
      requires Valid() && t in all
      modifies this`timers, this`clock, t`ms, t`next
      ensures Valid() && t.ms == old(t.ms)
      ensures ok <==> t.cb.Some?
      ensures t.next == if ok then now + t.ms else old(t.next)
      ensures ok && old(WakeSafe()) ==>
        (WakeSafe() <==> tickled || (announced.Some? && announced.value <= now + t.ms))
      ensures old(WakeSafe()) && old(clock) <= now ==> WakeSafe()
      ensures clock == if ok && now > old(clock) then now else old(clock)
    {
      if t.cb == None { return false; }
      clock := if now > clock then now else clock;
      Rekey(t, t.ms, now + t.ms);
      var first := Insert(t, {t});
      ok := true;
    }

    /** Timer::reset; the unchanged period from its own start is a success even on a dead timer. */
    method Reset(t: Timer, ms: nat, fromNow: bool, now: nat) returns (ok: bool, notified: bool)
      requires Valid() && t in all
      modifies this`timers, this`tickled, this`clock, t`next, t`ms
      ensures Valid() && (old(WakeSafe()) ==> WakeSafe())
      ensures ok <==> t.cb.Some? || (ms == old(t.ms) && !fromNow)
      ensures var moved := t.cb.Some? && (ms != old(t.ms) || fromNow);
              && t.ms == (if moved then ms else old(t.ms))
              && t.next == (if !moved then old(t.next)
                            else if fromNow then now + ms
                            else old(t.next) - old(t.ms) + ms)
              && clock == if moved && fromNow && now > old(clock) then now else old(clock)
      ensures tickled <==> old(tickled) || notified
    {
      notified := false;
      if ms == t.ms && !fromNow { return true, false; }
      if t.cb == None { return false, false; }
      var start := if fromNow then now else t.next - t.ms;
      clock := if fromNow && now > clock then now else clock;
      Rekey(t, ms, start + ms);
      notified := InsertAndNotify(t);
      ok := true;
    }

    /** getNextTimer; None is ~0ull. */
    method GetNextTimer(now: nat) returns (wait: Option<nat>)
      requires Valid()
      modifies this`tickled, this`announced
      ensures Valid() && WakeSafe() && !tickled
      ensures wait == None <==> forall t :: t in all ==> t.cb == None
      ensures wait.Some? ==>
        && (exists t :: t in all && t.cb.Some? && Some(t.next) == announced)
        && (forall t :: t in all && t.cb.Some? ==> announced.value <= t.next)
        && wait.value == if now >= announced.value then 0 else announced.value - now
    {
      tickled := false;
      if timers == [] {
        announced := None;
        return None;
      }
      var first := timers[0];
      assert first in timers;
      announced := Some(first.next);
      forall t | t in timers ensures first.next <= t.next {
        var j :| 0 <= j < |timers| && timers[j] == t;
      }
      wait := Some(if now >= first.next then 0 else first.next - now);
    }

    /** The end of the expired prefix; probe is the address of the search key built for it. */
    method ExpiredEnd(now: nat, probe: nat, rollover: bool) returns (it: nat)
      requires Sorted()
      ensures it <= |timers|
      ensures forall j :: 0 <= j < |timers| ==> (j < it <==> rollover || timers[j].next <= now)
    {
      if rollover { return |timers|; }
      it := LowerBound(now, probe);
      while it < |timers| && timers[it].next == now
        invariant it <= |timers|
        invariant forall j :: 0 <= j < it ==> timers[j].next <= now
        invariant forall j :: it <= j < |timers| ==> now <= timers[j].next
      {
        it := it + 1;
      }
    }

    /** One round of listExpiredCb's loop, for an expired timer already outside the set. */
    method FireOne(t: Timer, now: nat, ghost out: set<Timer>) returns (cb: nat)
      requires ValidExcept(out) && t in out && t.cb.Some? && now <= clock
      modifies this`timers, t`next, t`cb
      ensures ValidExcept(out - {t})
      ensures Some(cb) == old(t.cb)
      ensures if t.recurring then t.cb == old(t.cb) && t.next == now + t.ms
              else t.cb == None && t.next == old(t.next)
    {
      cb := t.cb.value;
      if t.recurring {
        t.next := now + t.ms;
        var first := Insert(t, out);
      } else {
        t.cb := None;
      }
    }

    /** listExpiredCb's loop over the timers it took out of the set. */
    method FireAll(expired: seq<Timer>, now: nat) returns (cbs: seq<nat>)
      requires ValidExcept(set t | t in expired) && now <= clock
      requires forall i, j :: 0 <= i < j < |expired| ==> expired[i] != expired[j]
      requires forall t :: t in expired ==> t.cb.Some?
      modifies this`timers, set t | t in expired
      ensures Valid() && |cbs| == |expired|
      ensures forall j :: 0 <= j < |expired| ==> Some(cbs[j]) == old(expired[j].cb)
      ensures forall t :: t in expired ==>
                && t.ms == old(t.ms)
                && if t.recurring then t.cb == old(t.cb) && t.next == now + t.ms else t.cb == None
    {
      cbs := [];
      ghost var out := set t | t in expired;
      var i := 0;
      while i < |expired|
        invariant 0 <= i <= |expired| && |cbs| == i
        invariant ValidExcept(out)
        invariant forall j :: i <= j < |expired| ==> expired[j] in out
        invariant forall t :: t in out ==> t in expired[i..]
        invariant forall j :: i <= j < |expired| ==>
                    expired[j].cb == old(expired[j].cb) && expired[j].ms == old(expired[j].ms)
        invariant forall j :: 0 <= j < i ==> Some(cbs[j]) == old(expired[j].cb)
        invariant forall j :: 0 <= j < i ==>
                    && expired[j].ms == old(expired[j].ms)
                    && if expired[j].recurring
                       then expired[j].cb == old(expired[j].cb) && expired[j].next == now + expired[j].ms
                       else expired[j].cb == None
      {
        var cb := FireOne(expired[i], now, out);
        cbs := cbs + [cb];
        out := out - {expired[i]};
        i := i + 1;
      }
      assert out == {};
    }

    /** Erases the first `it` timers from the set. */
    method TakeExpired(it: nat, now: nat, rollover: bool) returns (expired: seq<Timer>)
      requires Valid() && it <= |timers| && forall j :: 0 <= j < it ==> rollover || timers[j].next <= now
      modifies this`timers
      ensures expired == old(timers)[..it] && ValidExcept(set t | t in expired)
      ensures timers == old(timers)[it..]
      ensures forall t :: t in expired ==> t in all && t.cb.Some? && (rollover || t.next <= now)
    {
      expired := timers[..it];
      timers := timers[it..];
    }

    /** No recurring timer of these, set to now + period, comes before the announced deadline. */
    ghost predicate AllAfter(fired: seq<Timer>, now: nat)
      reads this, fired
    {
      forall t :: t in fired && t.recurring ==> announced.Some? && announced.value <= now + t.ms
    }

    /** The wake-ups are safe after these timers fired if the others' were and these come late enough. */
    lemma SafeIffAfter(fired: seq<Timer>, now: nat)
      requires forall t :: t in all && t !in fired && t.cb.Some? ==>
                tickled || (announced.Some? && announced.value <= t.next)
      requires forall t :: t in fired ==>
                t in all && if t.recurring then t.cb.Some? && t.next == now + t.ms else t.cb == None
      ensures WakeSafe() <==> tickled || AllAfter(fired, now)
    {
      if !tickled && WakeSafe() {
        forall t | t in fired && t.recurring ensures announced.Some? && announced.value <= now + t.ms {
          assert t in all && t.cb.Some?;
        }
      }
    }

    /** Takes the due timers out and fires them. */
    method Deliver(now: nat, probe: nat, rollover: bool) returns (cbs: seq<nat>)
      requires Valid() && now <= clock
      modifies this`timers, all
      ensures Valid() && |cbs| <= |old(timers)|
      ensures forall j :: 0 <= j < |old(timers)| ==>
                (j < |cbs| <==> rollover || old(timers[j].next) <= now)
      ensures forall j :: 0 <= j < |cbs| ==> Some(cbs[j]) == old(timers[j].cb)
      ensures forall t :: t in old(timers)[..|cbs|] ==>
                if t.recurring then t.cb == old(t.cb) && t.next == now + t.ms else t.cb == None
      ensures forall t :: t in all && t !in old(timers)[..|cbs|] ==>
                t.cb == old(t.cb) && t.next == old(t.next)
      ensures forall t :: t in all ==> t.ms == old(t.ms)
      ensures old(WakeSafe()) ==> (WakeSafe() <==> tickled || AllAfter(old(timers)[..|cbs|], now))
      ensures old(WakeSafe()) && !rollover ==> WakeSafe()
    {
      var it := ExpiredEnd(now, probe, rollover);
      var expired := TakeExpired(it, now, rollover);
      cbs := FireAll(expired, now);
      if old(WakeSafe()) { SafeIffAfter(expired, now); }
    }

    method DetectClockRollover(now: nat) returns (rollover: bool)
      requires Valid()
      modifies this`previousTime, this`clock
      ensures Valid() && (WakeSafe() <==> old(WakeSafe()))
      ensures rollover == RolledOver(now, old(previousTime)) && previousTime == now
      ensures clock == if now > old(clock) then now else old(clock)
    {
      rollover := RolledOver(now, previousTime);
      previousTime := now;
      clock := if now > clock then now else clock;
    }

    /**
     listExpiredCb: the callbacks of the due prefix in deadline order; one-shots lose their
     callback, recurring timers go back in at now + period.  It issues no notice, so it is safe
     exactly when none of those comes before the announced deadline; without a rollover none does.
     */
    method ListExpired(now: nat, probe: nat) returns (cbs: seq<nat>)
      requires Valid()
      modifies this`timers, this`previousTime, this`clock, all
      ensures Valid() && |cbs| <= |old(timers)|
      ensures var rolled := RolledOver(now, old(previousTime));
              forall j :: 0 <= j < |old(timers)| ==>
                (j < |cbs| <==> rolled || old(timers[j].next) <= now)
      ensures forall j :: 0 <= j < |cbs| ==> Some(cbs[j]) == old(timers[j].cb)
      ensures forall t :: t in old(timers)[..|cbs|] ==>
                if t.recurring then t.cb == old(t.cb) && t.next == now + t.ms else t.cb == None
      ensures forall t :: t in all && t !in old(timers)[..|cbs|] ==>
                t.cb == old(t.cb) && t.next == old(t.next)
      ensures forall t :: t in all ==> t.ms == old(t.ms)
      ensures old(WakeSafe()) ==> (WakeSafe() <==> tickled || AllAfter(old(timers)[..|cbs|], now))
      ensures old(WakeSafe()) && !RolledOver(now, old(previousTime)) ==> WakeSafe()
      ensures previousTime == if old(timers) == [] then old(previousTime) else now
      ensures old(clock) <= clock && (clock == old(clock) || clock == now)
    {
      if timers == [] { return []; }
      var rollover := DetectClockRollover(now);
      if !rollover && timers[0].next > now { return []; }
      cbs := Deliver(now, probe, rollover);
    }
  }

}
