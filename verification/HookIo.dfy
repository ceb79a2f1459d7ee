/**
 The hooked blocking calls (do_io): a call that would block arms an event and perhaps a timer, parks its
 fiber, and is resumed by whichever of readiness, the timer's callback or a cancellation finds the event
 still armed.  One state is one call with everything of it that other threads can touch.  A timer's callback
 is four steps, because only its last one, cancelEvent, takes a lock: it takes hold of the condition, tests
 the mark, sets the mark, and cancels the event.
 */
module HookIo {
  import opened Options

  /** What one attempt of the real function does. */
  datatype Attempt = Returns(n: int) | Interrupted | WouldBlock

  datatype Result = Value(n: int) | TimedOut | ArmFailed

  datatype Phase =
    | Trying                 // about to call the real function
    | Arming                 // would block: the timer is set, the event not yet armed
    | Parked                 // event armed, fiber yielded to HOLD
    | Woken                  // its wake-up is queued
    | Checking               // resumed, timer cancelled, the mark not yet read
    | Returned(r: Result)

  /** How far the callback of an expired timer has come. */
  datatype Stage =
    | Taken                  // out of the timer set, not yet run
    | Locked                 // holds the condition, which it keeps alive
    | Passed                 // has found the call unmarked
    | Marked                 // has marked it, and is about to cancel the event

  /** timer is the timer of the present wait while it is in the timer set; callbacks are those of expired ones. */
  datatype Call = Call(
    timeout: bool,           // a timeout is set for the descriptor
    phase: Phase,
    armed: bool,             // the event bit
    cancelled: bool,         // timer_info.cancelled
    waits: nat,              // how often the event was armed
    wakes: nat,              // how often a wake-up was queued
    timer: Option<nat>,
    callbacks: map<nat, Stage>,
    last: Option<int>,       // what the last attempt returned
    marks: set<nat>)         // the waits whose timers set cancelled

  datatype Step =
    | Try(a: Attempt)               // an attempt
    | Arm(ok: bool)                 // addEvent, and what it answers
    | Ready                         // the event fires, or is cancelled from elsewhere
    | Expire                        // listExpiredCb takes the timer's callback
    | Lock(wait: nat)               // OnTimer: the condition is locked, or already gone
    | Test(wait: nat)               // the callback reads the mark
    | Mark(wait: nat)
    | Cancel(wait: nat)             // its cancelEvent
    | Resume                        // the fiber is swapped in again and cancels its timer
    | Check                         // it reads the mark

  function Begin(timeout: bool): Call {
    Call(timeout, Trying, false, false, 0, 0, None, map[], None, {})
  }

  predicate At(c: Call, w: nat, stage: Stage) {
    w in c.callbacks && c.callbacks[w] == stage
  }

  predicate Enabled(c: Call, s: Step) {
    match s
    case Try(_) => c.phase == Trying
    case Arm(_) => c.phase == Arming
    case Ready => c.armed
    case Expire => c.timer.Some?
    case Lock(w) => At(c, w, Taken)
    case Test(w) => At(c, w, Locked)
    case Mark(w) => At(c, w, Passed)
    case Cancel(w) => At(c, w, Marked)
    case Resume => c.phase == Woken
    case Check => c.phase == Checking
  }

  /** triggerEvent: the bit is cleared and the parked fiber queued. */
  function Trigger(c: Call): Call {
    c.(armed := false, phase := Woken, wakes := c.wakes + 1)
  }

  /** The timer_info is there: the call has not returned, or a callback holds it. */
  predicate Alive(c: Call) {
    !c.phase.Returned? || exists w :: w in c.callbacks && c.callbacks[w] != Taken
  }

  function To(c: Call, w: nat, stage: Stage): Call {
    c.(callbacks := c.callbacks[w := stage])
  }

  function Over(c: Call, w: nat): Call {
    c.(callbacks := c.callbacks - {w})
  }

  function Apply(c: Call, s: Step): Call
    requires Enabled(c, s)
  {
    match s
    case Try(Returns(n)) => c.(phase := Returned(Value(n)), last := Some(n))
    case Try(Interrupted) => c
    case Try(WouldBlock) => c.(phase := Arming, timer := if c.timeout then Some(c.waits) else None)
    case Arm(false) => c.(phase := Returned(ArmFailed), timer := None)
    case Arm(true) => c.(phase := Parked, armed := true, waits := c.waits + 1)
    case Ready => Trigger(c)
    case Expire => To(c, c.timer.value, Taken).(timer := None)
    case Lock(w) => if Alive(c) then To(c, w, Locked) else Over(c, w)
    case Test(w) => if c.cancelled then Over(c, w) else To(c, w, Passed)
    case Mark(w) => To(c, w, Marked).(cancelled := true, marks := c.marks + {w})
    case Cancel(w) => if c.armed then Trigger(Over(c, w)) else Over(c, w)
    case Resume => c.(phase := Checking, timer := None)
    case Check => c.(phase := if c.cancelled then Returned(TimedOut) else Trying)
  }

  predicate IsRun(c: Call, run: seq<Step>)
    decreases |run|
  {
    run == [] || (Enabled(c, run[0]) && IsRun(Apply(c, run[0]), run[1..]))
  }

  function After(c: Call, run: seq<Step>): Call
    requires IsRun(c, run)
    decreases |run|
  {
    if run == [] then c else After(Apply(c, run[0]), run[1..])
  }

  /** A run with one step more. */
  lemma {:induction false} Extend(c: Call, run: seq<Step>, s: Step) returns (more: seq<Step>)
    requires IsRun(c, run) && Enabled(After(c, run), s)
    ensures more == run + [s] && IsRun(c, more) && After(c, more) == Apply(After(c, run), s)
    decreases |run|
  {
    more := run + [s];
    if run == [] {
      assert more[1..] == [];
    } else {
      var rest := Extend(Apply(c, run[0]), run[1..], s);
      assert more[1..] == rest;
    }
  }

  // ---- What every run keeps -----------------------------------------------------------------

  /** The number of the wait that is being armed, or was armed last. */
  function Current(c: Call): int {
    if c.phase == Arming || c.phase == Returned(ArmFailed) then c.waits else c.waits - 1
  }

  ghost predicate TimersOk(c: Call) {
    && (c.timer.Some? ==> c.timeout && c.timer.value == Current(c) && c.timer.value !in c.callbacks)
    && (c.timer.Some? ==> c.timer.value !in c.marks)
    && (c.timer.Some? ==> c.phase == Arming || c.phase == Parked || c.phase == Woken)
    && (forall w :: w in c.callbacks ==> w <= Current(c) && c.timeout && (w in c.marks <==> c.callbacks[w] == Marked))
  }

  ghost predicate MarksOk(c: Call) {
    && (c.cancelled <==> c.marks != {})
    && (forall w :: w in c.marks ==> w <= Current(c) && c.timeout)
    && (c.phase == Returned(TimedOut) ==> c.cancelled)
  }

  /** The timeout of an unmarked wait is still to come. */
  predicate TimeoutAhead(c: Call) {
    c.timeout && !c.cancelled && (c.phase == Arming || c.phase == Parked) ==>
      c.timer.Some? || Current(c) in c.callbacks
  }

  ghost predicate Inv(c: Call) {
    && (c.armed <==> c.phase == Parked)
    && c.waits == c.wakes + (if c.armed then 1 else 0)
    && TimersOk(c) && MarksOk(c) && TimeoutAhead(c)
    && (c.phase.Returned? && c.phase.r.Value? ==> c.last == Some(c.phase.r.n))
    && (c.phase == Parked || c.phase == Woken || c.phase == Checking || c.phase == Returned(TimedOut) ==> c.waits > 0)
  }

  lemma KeepInvByCall(c: Call, s: Step)
    requires Inv(c) && Enabled(c, s)
    requires s.Try? || s.Arm? || s.Ready? || s.Resume? || s.Check?
    ensures Inv(Apply(c, s)) && Apply(c, s).timeout == c.timeout
  {
  }

  lemma KeepInvByTimer(c: Call, s: Step)
    requires Inv(c) && Enabled(c, s)
    requires s.Expire? || s.Lock? || s.Test? || s.Mark? || s.Cancel?
    ensures Inv(Apply(c, s)) && Apply(c, s).timeout == c.timeout
  {
    if s.Mark? { assert s.wait in Apply(c, s).marks; }
  }

  lemma KeepInv(c: Call, s: Step)
    requires Inv(c) && Enabled(c, s)
    ensures Inv(Apply(c, s)) && Apply(c, s).timeout == c.timeout
  {
    if s.Expire? || s.Lock? || s.Test? || s.Mark? || s.Cancel? { KeepInvByTimer(c, s); } else { KeepInvByCall(c, s); }
  }

  lemma {:induction false} InvAfter(c: Call, run: seq<Step>)
    requires Inv(c) && IsRun(c, run)
    ensures Inv(After(c, run)) && After(c, run).timeout == c.timeout
    decreases |run|
  {
    if run != [] {
      KeepInv(c, run[0]);
      InvAfter(Apply(c, run[0]), run[1..]);
    }
  }

  /**
   Over any run of a blocking call: every arm is answered by at most one wake-up, and by exactly one unless
   the call is still parked on it; a call that returned has no event armed and no timer set; it returned
   ETIMEDOUT only if a timer of its own marked it, and a value only if that is what its last attempt returned.
   */
  lemma OneWakePerArm(timeout: bool, run: seq<Step>)
    requires IsRun(Begin(timeout), run)
    ensures var c := After(Begin(timeout), run);
      && c.wakes <= c.waits <= c.wakes + 1 && (c.waits == c.wakes + 1 <==> c.phase == Parked)
      && (c.phase.Returned? ==> !c.armed && c.timer == None)
      && (c.phase == Returned(TimedOut) ==> timeout && exists w :: w in c.marks && w < c.waits)
      && (c.phase.Returned? && c.phase.r.Value? ==> c.last == Some(c.phase.r.n))
  {
    InvAfter(Begin(timeout), run);
  }

  /** How many attempts would have blocked, and how often the event was armed. */
  function Blocked(run: seq<Step>): nat {
    if run == [] then 0 else (if run[0] == Try(WouldBlock) then 1 else 0) + Blocked(run[1..])
  }

  function ArmedOften(run: seq<Step>): nat {
    if run == [] then 0 else (if run[0].Arm? then 1 else 0) + ArmedOften(run[1..])
  }

  lemma PhaseStep(c: Call, s: Step)
    requires Inv(c) && Enabled(c, s)
    ensures Apply(c, s).phase == Arming <==> s == Try(WouldBlock) || (c.phase == Arming && !s.Arm?)
    ensures s == Try(WouldBlock) || s.Arm? ==> (s.Arm? <==> c.phase == Arming)
  {
  }

  /** Every arming answers an attempt that would have blocked: an interrupted one is only tried again. */
  lemma {:induction false} ArmsAreBlocks(c: Call, run: seq<Step>)
    requires Inv(c) && IsRun(c, run)
    ensures Blocked(run) + (if c.phase == Arming then 1 else 0)
      == ArmedOften(run) + (if After(c, run).phase == Arming then 1 else 0)
    decreases |run|
  {
    if run != [] {
      PhaseStep(c, run[0]);
      KeepInv(c, run[0]);
      ArmsAreBlocks(Apply(c, run[0]), run[1..]);
    }
  }

  /** A call returns a value only by an attempt that did, and does not return while attempts are interrupted. */
  lemma {:induction false} ValueReturned(c: Call, run: seq<Step>, n: int)
    requires IsRun(c, run) && c.phase != Returned(Value(n)) && After(c, run).phase == Returned(Value(n))
    ensures Try(Returns(n)) in run
    decreases |run|
  {
    var d := Apply(c, run[0]);
    if d.phase != Returned(Value(n)) {
      ValueReturned(d, run[1..], n);
      assert Try(Returns(n)) in run[1..];
    }
  }

  lemma {:induction false} InterruptedGoesOn(c: Call, run: seq<Step>)
    requires IsRun(c, run) && c.phase == Trying && forall s :: s in run ==> s.Try? && s.a == Interrupted
    ensures After(c, run) == c
    decreases |run|
  {
    if run != [] {
      assert run[0] in run && forall s :: s in run[1..] ==> s in run;
      InterruptedGoesOn(Apply(c, run[0]), run[1..]);
    }
  }

  /** A call that has returned stays so, whatever its timers' callbacks still do. */
  lemma {:induction false} ReturnedStays(c: Call, run: seq<Step>)
    requires Inv(c) && IsRun(c, run) && c.phase.Returned?
    ensures After(c, run).phase == c.phase
    decreases |run|
  {
    if run != [] {
      KeepInv(c, run[0]);
      ReturnedStays(Apply(c, run[0]), run[1..]);
    }
  }

  /** A call returns -1 for a failed addEvent exactly if one failed: nothing is tried after that. */
  lemma {:induction false} ArmFailureEnds(c: Call, run: seq<Step>)
    requires Inv(c) && IsRun(c, run) && !c.phase.Returned?
    ensures After(c, run).phase == Returned(ArmFailed) <==> Arm(false) in run
    decreases |run|
  {
    if run != [] {
      var d := Apply(c, run[0]);
      KeepInv(c, run[0]);
      if d.phase.Returned? {
        ReturnedStays(d, run[1..]);
        NoArmLater(d, run[1..]);
      } else {
        ArmFailureEnds(d, run[1..]);
      }
      assert run == [run[0]] + run[1..];
    }
  }

  lemma {:induction false} NoArmLater(c: Call, run: seq<Step>)
    requires Inv(c) && IsRun(c, run) && c.phase.Returned?
    ensures Arm(false) !in run
    decreases |run|
  {
    if run != [] {
      KeepInv(c, run[0]);
      ReturnedStays(c, [run[0]]);
      NoArmLater(Apply(c, run[0]), run[1..]);
      assert run == [run[0]] + run[1..];
    }
  }

  // ---- Whose timer ends a wait --------------------------------------------------------------

  /** The call ends in ETIMEDOUT out of its present wait, although that wait's own timer has not marked it. */
  predicate StaleEnd(c: Call, run: seq<Step>) {
    IsRun(c, run) && After(c, run).phase == Returned(TimedOut)
    && After(c, run).waits == c.waits && Current(c) !in After(c, run).marks
  }

  /** A parked call is marked, or may come to be marked, by an earlier wait's timer only. */
  ghost predicate StaleAhead(c: Call) {
    Current(c) !in c.marks && (c.cancelled || exists w :: w in c.callbacks && w != Current(c))
  }

  /** It is out of its wait, and only a further wait can end in ETIMEDOUT. */
  lemma {:induction false} NextWait(c: Call, run: seq<Step>)
    requires IsRun(c, run) && After(c, run).phase == Returned(TimedOut)
    requires c.phase == Trying || c.phase == Arming || (c.phase.Returned? && !c.phase.r.TimedOut?)
    requires !c.armed
    ensures After(c, run).waits > c.waits
    decreases |run|
  {
    if run[0] == Arm(true) {
      WaitsGrow(Apply(c, run[0]), run[1..]);
    } else {
      NextWait(Apply(c, run[0]), run[1..]);
    }
  }

  lemma {:induction false} WaitsGrow(c: Call, run: seq<Step>)
    requires IsRun(c, run)
    ensures After(c, run).waits >= c.waits
    decreases |run|
  {
    if run != [] { WaitsGrow(Apply(c, run[0]), run[1..]); }
  }

  lemma {:induction false} StaleOnlyIf(c: Call, run: seq<Step>)
    requires Inv(c) && StaleEnd(c, run)
    requires c.phase == Parked || c.phase == Woken || c.phase == Checking || c.phase == Returned(TimedOut)
    ensures StaleAhead(c)
    decreases |run|
  {
    if run != [] {
      var d := Apply(c, run[0]);
      KeepInv(c, run[0]);
      if d.phase == Trying {
        NextWait(d, run[1..]);
      } else {
        StaleOnlyIf(d, run[1..]);
      }
    }
  }

  /** A callback that can still mark a call that has not returned does. */
  lemma MarkBy(c: Call, run: seq<Step>, w: nat) returns (more: seq<Step>)
    requires IsRun(c, run) && !After(c, run).phase.Returned? && !After(c, run).cancelled
    requires w in After(c, run).callbacks && After(c, run).callbacks[w] != Marked
    ensures run <= more && IsRun(c, more)
    ensures var d := After(c, run);
      After(c, more) == To(d, w, Marked).(cancelled := true, marks := d.marks + {w})
  {
    more := run;
    if At(After(c, run), w, Taken) { more := Extend(c, more, Lock(w)); }
    if At(After(c, more), w, Locked) { more := Extend(c, more, Test(w)); }
    more := Extend(c, more, Mark(w));
  }

  /** And what is armed and marked ends in ETIMEDOUT once it is ready. */
  lemma EndMarked(c: Call, run: seq<Step>) returns (more: seq<Step>)
    requires IsRun(c, run) && After(c, run).armed && After(c, run).cancelled
    ensures IsRun(c, more) && After(c, more).phase == Returned(TimedOut)
    ensures After(c, more).waits == After(c, run).waits && After(c, more).marks == After(c, run).marks
  {
    more := Extend(c, run, Ready);
    more := Extend(c, more, Resume);
    more := Extend(c, more, Check);
  }

  /**
   A parked call can end in ETIMEDOUT without its own timer having marked it exactly when its own timer has
   not, and an earlier wait's timer has or has a callback still under way.
   */
  lemma StaleIff(c: Call)
    requires Inv(c) && c.phase == Parked
    ensures (exists run :: StaleEnd(c, run)) <==> StaleAhead(c)
  {
    if StaleAhead(c) {
      var run: seq<Step> := [];
      if !c.cancelled {
        var w :| w in c.callbacks && w != Current(c);
        run := MarkBy(c, run, w);
      }
      run := EndMarked(c, run);
      assert StaleEnd(c, run);
    }
    forall run | StaleEnd(c, run) ensures StaleAhead(c) { StaleOnlyIf(c, run); }
  }

  /** A first wait that ended by data, just when its timer had expired. */
  lemma FirstWait() returns (run: seq<Step>)
    ensures IsRun(Begin(true), run)
    ensures After(Begin(true), run) == Call(true, Trying, false, false, 1, 1, None, map[0 := Taken], None, {})
  {
    var c := Begin(true);
    run := Extend(c, [], Try(WouldBlock));
    run := Extend(c, run, Arm(true));
    run := Extend(c, run, Expire);
    run := Extend(c, run, Ready);
    run := Extend(c, run, Resume);
    run := Extend(c, run, Check);
  }

  /** A further wait. */
  lemma WaitAgain(c: Call, run: seq<Step>) returns (more: seq<Step>)
    requires IsRun(c, run) && After(c, run).phase == Trying && After(c, run).timeout
    ensures run <= more && IsRun(c, more)
    ensures var d := After(c, run);
      After(c, more) == d.(phase := Parked, armed := true, waits := d.waits + 1, timer := Some(d.waits))
  {
    more := Extend(c, run, Try(WouldBlock));
    more := Extend(c, more, Arm(true));
  }

  /** Run passes through a second wait that is already marked, or is not. */
  predicate SecondWait(run: seq<Step>, marked: bool) {
    exists i :: 0 <= i <= |run| && IsRun(Begin(true), run[..i])
      && (var c := After(Begin(true), run[..i]); c.phase == Parked && c.waits == 2 && c.cancelled == marked)
  }

  /** So the second wait can end by the first one's timer, whether the mark is set before or after the arming. */
  lemma StaleTimeoutReachable(marked: bool) returns (run: seq<Step>)
    ensures IsRun(Begin(true), run) && SecondWait(run, marked)
    ensures var c := After(Begin(true), run);
      c.phase == Returned(TimedOut) && c.waits == 2 && c.marks == {0}
  {
    var c := Begin(true);
    run := FirstWait();
    if marked { run := MarkBy(c, run, 0); }
    run := WaitAgain(c, run);
    var second := run;
    if !marked { run := MarkBy(c, run, 0); }
    run := Extend(c, run, Cancel(0));
    run := Extend(c, run, Resume);
    run := Extend(c, run, Check);
    assert run[..|second|] == second;
  }

  // ---- Whether a wait can still time out ------------------------------------------------------

  /** The call leaves its wait although its event neither fires nor is cancelled from elsewhere. */
  predicate EndsUnaided(c: Call, run: seq<Step>) {
    IsRun(c, run) && Ready !in run && After(c, run).phase != Parked
  }

  /** A callback is past its test, and so will cancel the event. */
  predicate Decided(c: Call) {
    exists w :: w in c.callbacks && (c.callbacks[w] == Passed || c.callbacks[w] == Marked)
  }

  lemma {:induction false} StaysParked(c: Call, run: seq<Step>)
    requires c.phase == Parked && c.cancelled && !Decided(c) && IsRun(c, run) && Ready !in run
    ensures After(c, run).phase == Parked
    decreases |run|
  {
    if run != [] {
      assert run[0] in run;
      var d := Apply(c, run[0]);
      assert d.phase == Parked && d.cancelled;
      StaysParked(d, run[1..]);
    }
  }

  /** A parked call with a timeout can end without its event exactly when it is unmarked or a callback is decided. */
  lemma TimeoutEndsIff(c: Call)
    requires Inv(c) && c.phase == Parked && c.timeout
    ensures (exists run :: EndsUnaided(c, run)) <==> !c.cancelled || Decided(c)
  {
    if !c.cancelled || Decided(c) {
      var run := EndUnaided(c);
      assert EndsUnaided(c, run);
    }
    forall run | EndsUnaided(c, run) ensures !c.cancelled || Decided(c) {
      if c.cancelled && !Decided(c) { StaysParked(c, run); }
    }
  }

  lemma EndUnaided(c: Call) returns (run: seq<Step>)
    requires Inv(c) && c.phase == Parked && c.timeout && (!c.cancelled || Decided(c))
    ensures EndsUnaided(c, run)
  {
    var w: nat := Current(c);
    run := [];
    if Decided(c) {
      w :| w in c.callbacks && (c.callbacks[w] == Passed || c.callbacks[w] == Marked);
    } else if c.timer.Some? {
      run := Extend(c, run, Expire);
    }
    if At(After(c, run), w, Taken) { run := Extend(c, run, Lock(w)); }
    if At(After(c, run), w, Locked) { run := Extend(c, run, Test(w)); }
    if At(After(c, run), w, Passed) { run := Extend(c, run, Mark(w)); }
    run := Extend(c, run, Cancel(w));
  }

  predicate Unparked(c: Call) {
    c.phase == Trying || c.phase == Arming
  }

  /** A cancelEvent that comes while the call has no event armed but may arm one again. */
  predicate Missed(c: Call, s: Step) {
    Enabled(c, s) && s.Cancel? && Unparked(c)
  }

  /** While no cancelEvent was missed, a marked call that may park has one still to come. */
  ghost predicate CancelAhead(c: Call) {
    c.cancelled && (Unparked(c) || c.phase == Parked) ==> exists w :: At(c, w, Marked)
  }

  lemma KeepCancelAhead(c: Call, s: Step)
    requires Inv(c) && Enabled(c, s) && CancelAhead(c) && !Missed(c, s)
    ensures CancelAhead(Apply(c, s))
  {
    var d := Apply(c, s);
    if s.Mark? {
      assert At(d, s.wait, Marked);
    } else if d.cancelled && (Unparked(d) || d.phase == Parked) {
      var w :| At(c, w, Marked);
      assert At(d, w, Marked);
    }
  }

  /** A parked wait has lost its timeout only if some cancelEvent was missed before. */
  lemma {:induction false} LostOnlyIfMissed(c: Call, run: seq<Step>)
    requires Inv(c) && CancelAhead(c) && IsRun(c, run)
    requires After(c, run).phase == Parked && After(c, run).cancelled && !Decided(After(c, run))
    ensures exists i :: 0 <= i < |run| && IsRun(c, run[..i]) && Missed(After(c, run[..i]), run[i])
    decreases |run|
  {
    if run != [] {
      var d := Apply(c, run[0]);
      if Missed(c, run[0]) {
        assert run[..0] == [] && IsRun(c, run[..0]) && After(c, run[..0]) == c;
      } else {
        KeepInv(c, run[0]);
        KeepCancelAhead(c, run[0]);
        LostOnlyIfMissed(d, run[1..]);
        var i :| 0 <= i < |run[1..]| && IsRun(d, run[1..][..i]) && Missed(After(d, run[1..][..i]), run[1..][i]);
        var front := run[..i + 1];
        assert front[0] == run[0] && front[1..] == run[1..][..i] && run[1..][i] == run[i + 1];
        assert IsRun(c, front) && After(c, front) == After(d, front[1..]);
      }
    }
  }

  /** And it happens: the call parks with a timeout set, and neither it nor anything else can time it out. */
  lemma LostTimeoutReachable() returns (run: seq<Step>)
    ensures IsRun(Begin(true), run)
    ensures var c := After(Begin(true), run);
      c.phase == Parked && c.timer.Some? && !exists more :: EndsUnaided(c, more)
  {
    var c := Begin(true);
    run := FirstWait();
    run := MarkBy(c, run, 0);
    run := Extend(c, run, Cancel(0));
    run := WaitAgain(c, run);
    InvAfter(c, run);
    TimeoutEndsIff(After(c, run));
  }

  // ---- After the call returned ----------------------------------------------------------------

  /** A run in which a callback of this call goes as far as its cancelEvent. */
  predicate Cancels(c: Call, run: seq<Step>) {
    IsRun(c, run) && exists i :: 0 <= i < |run| && run[i].Cancel?
  }

  /** A callback is past its test, or holds the condition of an unmarked call. */
  predicate StillStrikes(c: Call) {
    exists w :: w in c.callbacks && c.callbacks[w] != Taken && (c.callbacks[w] == Locked ==> !c.cancelled)
  }

  lemma {:induction false} NoStrike(c: Call, run: seq<Step>)
    requires c.phase.Returned? && !c.armed && c.timer == None && !StillStrikes(c) && IsRun(c, run)
    ensures forall i :: 0 <= i < |run| ==> !run[i].Cancel?
    decreases |run|
  {
    if run != [] {
      var d := Apply(c, run[0]);
      NoStrike(d, run[1..]);
    }
  }

  /**
   After a call has returned, a callback of it can still cancel whatever waits for the same event by then,
   exactly when it is past its test or has taken hold of the unmarked condition.
   */
  lemma LateCancelIff(c: Call)
    requires Inv(c) && c.phase.Returned?
    ensures (exists run :: Cancels(c, run)) <==> StillStrikes(c)
  {
    if StillStrikes(c) {
      var w :| w in c.callbacks && c.callbacks[w] != Taken && (c.callbacks[w] == Locked ==> !c.cancelled);
      var run: seq<Step> := [];
      if At(c, w, Locked) { run := Extend(c, run, Test(w)); }
      if At(After(c, run), w, Passed) { run := Extend(c, run, Mark(w)); }
      run := Extend(c, run, Cancel(w));
      assert run[|run| - 1].Cancel? && Cancels(c, run);
    }
    forall run | Cancels(c, run) ensures StillStrikes(c) {
      if !StillStrikes(c) { NoStrike(c, run); }
    }
  }

  /** And it happens: the call returns what it read while the callback is between its test and its mark. */
  lemma LateCancelReachable(n: int) returns (run: seq<Step>)
    ensures IsRun(Begin(true), run)
    ensures var c := After(Begin(true), run);
      c.phase == Returned(Value(n)) && exists more :: Cancels(c, more)
  {
    var c := Begin(true);
    run := Extend(c, [], Try(WouldBlock));
    run := Extend(c, run, Arm(true));
    run := Extend(c, run, Expire);
    run := Extend(c, run, Lock(0));
    run := Extend(c, run, Test(0));
    run := Extend(c, run, Ready);
    run := Extend(c, run, Resume);
    run := Extend(c, run, Check);
    run := Extend(c, run, Try(Returns(n)));
    assert At(After(c, run), 0, Passed);
    InvAfter(c, run);
    LateCancelIff(After(c, run));
  }

}
