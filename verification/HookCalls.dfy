/**
 Any number of blocking calls at once, each on a fiber of its own and for an event of its own: none disturbs
 another, so what the discipline asks of "everybody else" is left to be asked of code that is not such a call.
 */
module HookCalls {
  import opened Options
  import opened Reactor
  import opened ReactorInvariant
  import opened ReactorTheorems
  import opened ReactorConservation
  import opened HookDiscipline
  import H = HookIo

  /** A call and what it waits for; the calls are known by their fibers. */
  datatype Member = Member(c: H.Call, w: Wait)

  datatype Turn =
    | Begins(f: FiberId, timeout: bool, w: Wait)  // a fiber enters do_io
    | Own(f: FiberId, m: Move)                    // a step of one call
    | Shared(a: Step)                             // any other step of the reactor

  /** The call has not returned. */
  predicate Waits(x: Member) {
    !x.c.phase.Returned?
  }

  /** No two calls under way wait for the same event. */
  predicate Apart(calls: map<FiberId, Member>) {
    forall f, g :: f in calls && g in calls && f != g && Waits(calls[f]) && Waits(calls[g]) ==>
      calls[f].w != calls[g].w
  }

  ghost predicate AllTied(s: State, calls: map<FiberId, Member>) {
    forall f :: f in calls ==> Tied(s, calls[f].c, f, calls[f].w)
  }

  ghost predicate CallsOk(s: State, calls: map<FiberId, Member>) {
    Inv(s) && AllTied(s, calls) && Apart(calls)
  }

  /** The step fires the wait of a call. */
  predicate FiresAt(s: State, x: Member, a: Step) {
    x.c.armed && Fires(s, a, x.w)
  }

  /**
   What the calls and the rest may do.  A call starts on a fiber that has control, and no wake-up of it is
   outstanding; and for an event no other call is waiting for.  A step that is no call's wakes no call's fiber but
   by firing what it waits for.
   */
  ghost predicate MayTurn(s: State, calls: map<FiberId, Member>, x: Turn) {
    match x
    case Begins(f, _, w) =>
      && (f in calls ==> calls[f].c.phase.Returned?)
      && !Outstanding(s, f) && (exists t :: RunningOn(s, t, f))
      && (forall g :: g in calls && g != f && Waits(calls[g]) ==> calls[g].w != w)
    case Own(f, m) =>
      f in calls && m.h.Some? && !m.h.value.Ready? && Follows(s, calls[f].c, f, calls[f].w, m)
    case Shared(a) =>
      Enabled(s, a)
      && forall f :: f in calls && !FiresAt(s, calls[f], a) ==> Aside(s, calls[f].c, f, calls[f].w, a)
  }

  ghost predicate Turns(s: State, calls: map<FiberId, Member>, x: Turn) {
    match x
    case Begins(_, _, _) => true
    case Own(f, m) => f in calls && Possible(s, calls[f].c, m)
    case Shared(a) => Enabled(s, a)
  }

  ghost function NextOf(s: State, calls: map<FiberId, Member>, x: Turn): State
    requires Turns(s, calls, x)
  {
    match x
    case Begins(_, _, _) => s
    case Own(f, m) => NextState(s, calls[f].c, m)
    case Shared(a) => Apply(s, a)
  }

  function Fired(s: State, x: Member, a: Step): Member {
    if FiresAt(s, x, a) then x.(c := H.Trigger(x.c)) else x
  }

  ghost function CallsAfter(s: State, calls: map<FiberId, Member>, x: Turn): map<FiberId, Member>
    requires Turns(s, calls, x)
  {
    match x
    case Begins(f, timeout, w) => calls[f := Member(H.Begin(timeout), w)]
    case Own(f, m) => calls[f := calls[f].(c := NextCall(s, calls[f].c, m))]
    case Shared(a) => map f | f in calls :: Fired(s, calls[f], a)
  }

  // ---- One call's step is aside for the others --------------------------------------------------

  lemma ArmAside(s: State, t: nat, f: FiberId, w: Wait, g: FiberId, y: Member)
    requires Inv(s) && RunningOn(s, t, f) && !Outstanding(s, f) && w !in s.waits && f != g
    requires Tied(s, y.c, g, y.w)
    ensures Aside(s, y.c, g, y.w, User(FiberOn(t), AddEvent(w, RunFiber(f))))
  {
    ArmAllowed(s, t, f, w);
  }

  lemma CancelAside(s: State, t: nat, f: FiberId, w: Wait, g: FiberId, y: Member)
    requires RunningOn(s, t, f) && Tied(s, y.c, g, y.w) && (Waits(y) ==> y.w != w)
    ensures Aside(s, y.c, g, y.w, User(FiberOn(t), CancelEvent(w)))
  {
  }

  lemma ResumeAside(s: State, f: FiberId, a: Step, g: FiberId, y: Member)
    requires Enabled(s, a) && Resumes(s, a, f) && f != g && Tied(s, y.c, g, y.w)
    ensures Aside(s, y.c, g, y.w, a)
  {
  }

  /** So whatever a call does, it is nothing to another. */
  lemma OwnIsAside(s: State, calls: map<FiberId, Member>, f: FiberId, m: Move, g: FiberId)
    requires CallsOk(s, calls) && MayTurn(s, calls, Own(f, m)) && g in calls && g != f && m.a.Some?
    ensures Aside(s, calls[g].c, g, calls[g].w, m.a.value)
  {
    var x, y := calls[f], calls[g];
    match m.h.value
    case Arm(true) =>
      var t :| RunningOn(s, t, f) && m.a == Some(User(FiberOn(t), AddEvent(x.w, RunFiber(f))));
      ArmAside(s, t, f, x.w, g, y);
    case Cancel(_) =>
      var t, h :| RunningOn(s, t, h) && m.a == Some(User(FiberOn(t), CancelEvent(x.w)));
      CancelAside(s, t, h, x.w, g, y);
    case Resume => ResumeAside(s, f, m.a.value, g, y);
  }

  // ---- Every turn is possible, and leaves the calls tied ---------------------------------------

  lemma TurnPossible(s: State, calls: map<FiberId, Member>, x: Turn)
    requires CallsOk(s, calls) && MayTurn(s, calls, x)
    ensures Turns(s, calls, x)
  {
    if x.Own? { DisciplineMet(s, calls[x.f].c, x.f, calls[x.f].w, x.m); }
  }

  lemma OwnKeeps(s: State, calls: map<FiberId, Member>, f: FiberId, m: Move, g: FiberId)
    requires CallsOk(s, calls) && MayTurn(s, calls, Own(f, m)) && Turns(s, calls, Own(f, m)) && g in calls
    ensures var d := CallsAfter(s, calls, Own(f, m))[g]; Tied(NextOf(s, calls, Own(f, m)), d.c, g, d.w)
  {
    if g == f {
      MoveKeeps(s, calls[f].c, f, calls[f].w, m);
    } else if m.a.Some? {
      OwnIsAside(s, calls, f, m, g);
      AsideKeeps(s, calls[g].c, g, calls[g].w, m.a.value);
    }
  }

  lemma SharedKeeps(s: State, calls: map<FiberId, Member>, a: Step, g: FiberId)
    requires CallsOk(s, calls) && MayTurn(s, calls, Shared(a)) && g in calls
    ensures var d := Fired(s, calls[g], a); Tied(Apply(s, a), d.c, g, d.w)
  {
    var y := calls[g];
    if FiresAt(s, y, a) {
      FireKeeps(s, y.c, H.Trigger(y.c), g, y.w, a);
    } else {
      AsideKeeps(s, y.c, g, y.w, a);
    }
  }

  lemma BeginKeeps(s: State, calls: map<FiberId, Member>, f: FiberId, timeout: bool, w: Wait, g: FiberId)
    requires CallsOk(s, calls) && MayTurn(s, calls, Begins(f, timeout, w))
    requires g in CallsAfter(s, calls, Begins(f, timeout, w))
    ensures var d := CallsAfter(s, calls, Begins(f, timeout, w))[g]; Tied(s, d.c, g, d.w)
  {
  }

  /** A call that has returned stays so, and each keeps its event. */
  lemma ApartKept(s: State, calls: map<FiberId, Member>, x: Turn)
    requires CallsOk(s, calls) && MayTurn(s, calls, x) && Turns(s, calls, x)
    ensures Apart(CallsAfter(s, calls, x))
  {
    var after := CallsAfter(s, calls, x);
    if !x.Begins? {
      forall f | f in after ensures f in calls && after[f].w == calls[f].w && (Waits(after[f]) ==> Waits(calls[f])) {
        assert Tied(s, calls[f].c, f, calls[f].w);
      }
    }
  }

  lemma InvKept(s: State, calls: map<FiberId, Member>, x: Turn)
    requires Inv(s) && Turns(s, calls, x)
    ensures Inv(NextOf(s, calls, x))
  {
    match x
    case Begins(_, _, _) =>
    case Own(f, m) => MoveInv(s, calls[f].c, m);
    case Shared(a) => KeepInv(s, a);
  }

  lemma TurnKeeps(s: State, calls: map<FiberId, Member>, x: Turn)
    requires CallsOk(s, calls) && MayTurn(s, calls, x) && Turns(s, calls, x)
    ensures CallsOk(NextOf(s, calls, x), CallsAfter(s, calls, x))
  {
    var after := CallsAfter(s, calls, x);
    forall g | g in after ensures Tied(NextOf(s, calls, x), after[g].c, g, after[g].w) {
      match x
      case Begins(f, timeout, w) => BeginKeeps(s, calls, f, timeout, w, g);
      case Own(f, m) => OwnKeeps(s, calls, f, m, g);
      case Shared(a) => SharedKeeps(s, calls, a, g);
    }
    InvKept(s, calls, x);
    ApartKept(s, calls, x);
  }

  // ---- Whole runs -------------------------------------------------------------------------------

  ghost predicate AllMayTurn(s: State, calls: map<FiberId, Member>, run: seq<Turn>)
    decreases |run|
  {
    run == [] ||
    (MayTurn(s, calls, run[0])
     && (Turns(s, calls, run[0]) ==> AllMayTurn(NextOf(s, calls, run[0]), CallsAfter(s, calls, run[0]), run[1..])))
  }

  ghost predicate AllTurn(s: State, calls: map<FiberId, Member>, run: seq<Turn>)
    decreases |run|
  {
    run == [] ||
    (Turns(s, calls, run[0]) && AllTurn(NextOf(s, calls, run[0]), CallsAfter(s, calls, run[0]), run[1..]))
  }

  lemma {:induction false} AllPossibleAtOnce(s: State, calls: map<FiberId, Member>, run: seq<Turn>)
    requires CallsOk(s, calls) && AllMayTurn(s, calls, run)
    ensures AllTurn(s, calls, run)
    decreases |run|
  {
    if run != [] {
      TurnPossible(s, calls, run[0]);
      TurnKeeps(s, calls, run[0]);
      AllPossibleAtOnce(NextOf(s, calls, run[0]), CallsAfter(s, calls, run[0]), run[1..]);
    }
  }

  /**
   From any state the reactor can reach, over any run in which any number of blocking calls start, wait, time out
   and return on fibers of their own: no step of any of them ever breaks the wake-up discipline.
   */
  lemma CallsTogether(n: nat, before: seq<Step>, run: seq<Turn>)
    requires IsRun(Init(n), before) && AllMayTurn(After(Init(n), before), map[], run)
    ensures AllTurn(After(Init(n), before), map[], run)
  {
    InvInit(n);
    InvAfter(Init(n), before);
    AllPossibleAtOnce(After(Init(n), before), map[], run);
  }

}
