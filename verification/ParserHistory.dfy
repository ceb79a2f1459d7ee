/**
 What an execution's marks and callbacks mean, told from the actions that have run and where: a callback is given
 the slice that began where its starting action last ran.
 */
module ParserHistory {
  import opened Options
  import opened ParserTable
  import opened ParserTrace

  /** The actions that have run, the latest last, each with its offset. */
  datatype History = Fresh | Ran(before: History, action: nat, at: nat)

  // Which actions run, from the lists that Move goes through.

  function ListRan(acts: seq<nat>, from: nat, n: nat, p: nat, h: History): History
    requires from + n <= |acts|
    decreases n
  {
    if n == 0 then h
    else
      var now := Ran(h, acts[from], p);
      if acts[from] == 12 then now else ListRan(acts, from + 1, n - 1, p, now)
  }

  function MoveRan(t: Table, relaxed: bool, k: Control, s: seq<int>, i: nat, h: History): History
    requires WellFormed(t) && k.cs < |t.keyOffsets| && i < |s|
  {
    match Cond(t, Trans(t, k.cs, s[i]), relaxed)
    case None => h
    case Some(cond) =>
      assert CondOk(t, cond);
      var a := t.condActions[cond];
      if a == 0 then h else ListRan(t.actions, a + 1, t.actions[a], i, h)
  }

  /** Those of an execution on s from i on, after the ones of h. */
  function RunRan(t: Table, relaxed: bool, k: Control, s: seq<int>, i: nat, h: History): History
    requires WellFormed(t) && k.cs < |t.keyOffsets| && i <= |s|
    decreases |s| - i
  {
    if i == |s| || k.cs == 0 then h
    else
      var (next, end) := Move(t, relaxed, k, s[i]);
      var after := MoveRan(t, relaxed, k, s, i, h);
      if end != AllRead then after else RunRan(t, relaxed, next, s, i + 1, after)
  }

  // What they mean.

  /** Where a or b last ran; `none` if neither did. */
  function LastAt(h: History, a: nat, b: nat, none: nat): nat {
    match h
    case Fresh => none
    case Ran(before, act, at) => if act == a || act == b then at else LastAt(before, a, b, none)
  }

  /** A parser announces XML (13) or JSON (14) once. */
  predicate Announced(h: History, already: bool) {
    match h
    case Fresh => already
    case Ran(before, act, _) => act == 13 || act == 14 || Announced(before, already)
  }

  /** The length of a field's name: from where action 1 last ran to the last action 2. */
  function NameLength(h: History): int {
    match h
    case Fresh => 0
    case Ran(before, act, at) => if act == 2 then at - LastAt(before, 1, 1, 0) else NameLength(before)
  }

  /** What one action calls back with, if it does. */
  function CallOf(before: History, act: nat, at: nat, len: nat, query: nat, already: bool): seq<Event> {
    var mark := LastAt(before, 0, 3, 0);
    if act == 4 then [HttpField(LastAt(before, 1, 1, 0), NameLength(before), mark, at - mark)]
    else if act in {5, 6, 7, 10, 11} then [Element(act, mark, at - mark)]
    else if act == 9 then [Element(9, LastAt(before, 8, 8, query), at - LastAt(before, 8, 8, query))]
    else if act == 12 && !Announced(before, already) then [HeaderDone(at + 1, len - at - 1)]
    else []
  }

  /** The callbacks, in order, of an execution on len bytes; query is the mark left by earlier ones. */
  function Calls(h: History, len: nat, query: nat, already: bool): seq<Event> {
    match h
    case Fresh => []
    case Ran(before, act, at) => Calls(before, len, query, already) + CallOf(before, act, at, len, query, already)
  }

  function BodyStart(h: History, was: nat, already: bool): nat {
    match h
    case Fresh => was
    case Ran(before, act, at) =>
      if act != 12 then BodyStart(before, was, already)
      else if Announced(before, already) then LastAt(before, 0, 3, 0) else at + 1
  }

  function ContentLength(h: History, was: int, already: bool): int {
    match h
    case Fresh => was
    case Ran(before, act, at) =>
      if act == 12 && Announced(before, already) then at - LastAt(before, 0, 3, 0) + 1
      else ContentLength(before, was, already)
  }

  /** The effect x of an execution that began with x0 and has run h. */
  predicate Told(x0: Effect, x: Effect, h: History, len: nat, already: bool) {
    && x.marks.mark == LastAt(h, 0, 3, 0)
    && x.marks.fieldStart == LastAt(h, 1, 1, 0)
    && x.marks.fieldLen == NameLength(h)
    && x.marks.queryStart == LastAt(h, 8, 8, x0.marks.queryStart)
    && x.marks.bodyStart == BodyStart(h, x0.marks.bodyStart, already)
    && x.marks.contentLen == ContentLength(h, x0.marks.contentLen, already)
    && x.events == x0.events + Calls(h, len, x0.marks.queryStart, already)
  }

  lemma DoTold(x0: Effect, x: Effect, h: History, len: nat, already: bool, a: nat, p: nat)
    requires Told(x0, x, h, len, already)
    ensures Told(x0, Do(a, p, len, Announced(h, already), x), Ran(h, a, p), len, already)
  {
    var q := x0.marks.queryStart;
    Regroup(x0.events, Calls(h, len, q, already), CallOf(h, a, p, len, q, already));
  }

  lemma Regroup(a: seq<Event>, b: seq<Event>, c: seq<Event>)
    ensures (a + b) + c == a + (b + c) && (c == [] ==> (a + b) + c == a + b)
  {
  }

  /** A control state says of the announcements what the history does. */
  predicate Agrees(k: Control, h: History, already: bool) {
    (k.xml || k.json) == Announced(h, already)
  }

  lemma {:induction false} DoAllTold(acts: seq<nat>, from: nat, n: nat, p: nat, len: nat, k: Control, x: Effect,
                                     x0: Effect, h: History, already: bool)
    requires from + n <= |acts| && Told(x0, x, h, len, already) && Agrees(k, h, already)
    ensures Told(x0, DoAll(acts, from, n, p, len, k, x), ListRan(acts, from, n, p, h), len, already)
    ensures Agrees(Act(acts, from, n, k).0, ListRan(acts, from, n, p, h), already)
    decreases n
  {
    if n > 0 {
      DoTold(x0, x, h, len, already, acts[from], p);
      if acts[from] != DONE {
        DoAllTold(acts, from + 1, n - 1, p, len, Flagged(acts[from], k),
                  Do(acts[from], p, len, k.xml || k.json, x), x0, Ran(h, acts[from], p), already);
      }
    }
  }

  lemma MoveTold(t: Table, relaxed: bool, k: Control, x: Effect, s: seq<int>, i: nat,
                 x0: Effect, h: History, already: bool)
    requires WellFormed(t) && k.cs < |t.keyOffsets| && i < |s| && Told(x0, x, h, |s|, already) && Agrees(k, h, already)
    ensures Told(x0, DoMove(t, relaxed, k, x, s, i), MoveRan(t, relaxed, k, s, i, h), |s|, already)
    ensures Agrees(Move(t, relaxed, k, s[i]).0, MoveRan(t, relaxed, k, s, i, h), already)
  {
    match Cond(t, Trans(t, k.cs, s[i]), relaxed) {
      case None =>
      case Some(cond) =>
        assert CondOk(t, cond);
        var a := t.condActions[cond];
        if a != 0 {
          DoAllTold(t.actions, a + 1, t.actions[a], i, |s|, k.(cs := t.targets[cond]), x, x0, h, already);
        }
    }
  }

  lemma {:induction false} RunTold(t: Table, relaxed: bool, k: Control, x: Effect, s: seq<int>, i: nat,
                                   x0: Effect, h: History, already: bool)
    requires WellFormed(t) && k.cs < |t.keyOffsets| && i <= |s| && Told(x0, x, h, |s|, already) && Agrees(k, h, already)
    ensures Told(x0, Trace(t, relaxed, k, x, s, i), RunRan(t, relaxed, k, s, i, h), |s|, already)
    decreases |s| - i
  {
    if i < |s| && k.cs != 0 {
      var (next, end) := Move(t, relaxed, k, s[i]);
      MoveTold(t, relaxed, k, x, s, i, x0, h, already);
      if end == AllRead {
        var y, more := DoMove(t, relaxed, k, x, s, i), MoveRan(t, relaxed, k, s, i, h);
        RunTold(t, relaxed, next, y, s, i + 1, x0, more, already);
      }
    }
  }

  /**
   Any execution leaves the marks, and makes the callbacks, that its history tells: a field's value and the other
   elements begin where action 0 or 3 last ran in it, a field's name where action 1 did, a query where action 8 did,
   in it or before; and each ends where its callback runs.
   */
  lemma ExecutionTold(t: Table, relaxed: bool, k: Control, x: Effect, s: seq<int>, i: nat)
    requires WellFormed(t) && k.cs < |t.keyOffsets| && i <= |s|
    ensures var y, h := Trace(t, relaxed, k, Reset(x), s, i), RunRan(t, relaxed, k, s, i, Fresh);
      && y.marks.mark == LastAt(h, 0, 3, 0) && y.marks.fieldStart == LastAt(h, 1, 1, 0)
      && y.marks.fieldLen == NameLength(h) && y.marks.queryStart == LastAt(h, 8, 8, x.marks.queryStart)
      && y.marks.bodyStart == BodyStart(h, x.marks.bodyStart, k.xml || k.json)
      && y.marks.contentLen == ContentLength(h, x.marks.contentLen, k.xml || k.json)
      && y.events == x.events + Calls(h, |s|, x.marks.queryStart, k.xml || k.json)
  {
    assert x.events + [] == x.events;
    RunTold(t, relaxed, k, Reset(x), s, i, Reset(x), Fresh, k.xml || k.json);
  }

}
