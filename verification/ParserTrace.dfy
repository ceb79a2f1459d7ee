/** What the parser's actions do besides moving its control state: the marks they set and the callbacks they make. */
module ParserTrace {
  import opened Options
  import opened ParserTable

  /** A callback: a header field, one of the other elements, or the end of the header. */
  datatype Event =
    | HttpField(nameAt: int, nameLen: int, valueAt: int, valueLen: int)
    | Element(action: nat, from: int, len: int)
    | HeaderDone(from: int, len: int)

  /** The offsets a parser keeps into the buffer of the present call. */
  datatype Marks = Marks(mark: nat, fieldStart: nat, fieldLen: int, queryStart: nat, bodyStart: nat, contentLen: int)

  /** The marks, and the callbacks made so far. */
  datatype Effect = Effect(marks: Marks, events: seq<Event>)

  function Called(x: Effect, e: Event): Effect {
    Effect(x.marks, x.events + [e])
  }

  /** One action at offset p of a buffer of len bytes; sent says whether XML or JSON was announced. */
  function Do(a: nat, p: nat, len: nat, sent: bool, x: Effect): Effect {
    var m := x.marks;
    if a == 0 || a == 3 then x.(marks := m.(mark := p))
    else if a == 1 then x.(marks := m.(fieldStart := p))
    else if a == 2 then x.(marks := m.(fieldLen := p - m.fieldStart))
    else if a == 4 then Called(x, HttpField(m.fieldStart, m.fieldLen, m.mark, p - m.mark))
    else if a == 5 || a == 6 || a == 7 || a == 10 || a == 11 then Called(x, Element(a, m.mark, p - m.mark))
    else if a == 8 then x.(marks := m.(queryStart := p))
    else if a == 9 then Called(x, Element(a, m.queryStart, p - m.queryStart))
    else if a == DONE then
      if sent then x.(marks := m.(bodyStart := m.mark, contentLen := p - m.mark + 1))
      else Called(x.(marks := m.(bodyStart := p + 1)), HeaderDone(p + 1, len - p - 1))
    else x
  }

  /** The n actions from `from` on, up to and with DONE. */
  function DoAll(acts: seq<nat>, from: nat, n: nat, p: nat, len: nat, k: Control, x: Effect): Effect
    requires from + n <= |acts|
    decreases n
  {
    if n == 0 then x
    else
      var y := Do(acts[from], p, len, k.xml || k.json, x);
      if acts[from] == DONE then y else DoAll(acts, from + 1, n - 1, p, len, Flagged(acts[from], k), y)
  }

  /** The control state after an action other than DONE. */
  function Flagged(a: nat, k: Control): Control {
    if a == XML then k.(xml := true) else if a == JSON then k.(json := true) else k
  }

  function DoEntry(t: Table, cond: nat, p: nat, len: nat, k: Control, x: Effect): Effect
    requires WellFormed(t) && cond < |t.targets|
  {
    assert CondOk(t, cond);
    var a := t.condActions[cond];
    if a == 0 then x else DoAll(t.actions, a + 1, t.actions[a], p, len, k, x)
  }

  /** What one character does. */
  function DoMove(t: Table, relaxed: bool, k: Control, x: Effect, s: seq<int>, i: nat): Effect
    requires WellFormed(t) && k.cs < |t.keyOffsets| && i < |s|
  {
    match Cond(t, Trans(t, k.cs, s[i]), relaxed)
    case None => x
    case Some(cond) => DoEntry(t, cond, i, |s|, k.(cs := t.targets[cond]), x)
  }

  /** What an execution on s does from i on. */
  function Trace(t: Table, relaxed: bool, k: Control, x: Effect, s: seq<int>, i: nat): Effect
    requires WellFormed(t) && k.cs < |t.keyOffsets| && i <= |s|
    decreases |s| - i
  {
    if i == |s| || k.cs == 0 then x
    else
      var (next, end) := Move(t, relaxed, k, s[i]);
      var y := DoMove(t, relaxed, k, x, s, i);
      if end != AllRead then y else Trace(t, relaxed, next, y, s, i + 1)
  }

  /** http_parser_execute's resets. */
  function Reset(x: Effect): Effect {
    x.(marks := x.marks.(mark := 0, fieldLen := 0, fieldStart := 0))
  }

  // What holds of the marks and callbacks of any execution.

  /** The marks lie at or before p; query_start may be q, which an earlier buffer left. */
  predicate MarksUpTo(m: Marks, p: nat, q: nat) {
    m.mark <= p && m.fieldStart <= p && 0 <= m.fieldLen <= p && (m.queryStart <= p || m.queryStart == q)
  }

  predicate Within(from: int, n: int, len: nat) {
    0 <= from && 0 <= n && from + n < len
  }

  /**
   What a callback is given lies inside the buffer of len bytes; except that a query string may start at q,
   the mark left from an earlier buffer, and that of a field's name only start and length do, each by itself.
   */
  predicate InBuffer(e: Event, len: nat, q: nat) {
    match e
    case HttpField(name, nameLen, from, n) => 0 <= name < len && 0 <= nameLen < len && Within(from, n, len)
    case Element(a, from, n) => Within(from, n, len) || (a == 9 && from == q)
    case HeaderDone(from, n) => 0 < from && 0 <= n && from + n == len
  }

  /** y is x with callbacks added that lie inside the buffer. */
  ghost predicate Added(x: Effect, y: Effect, len: nat, q: nat) {
    && |x.events| <= |y.events|
    && (forall i :: 0 <= i < |x.events| ==> y.events[i] == x.events[i])
    && forall i :: |x.events| <= i < |y.events| ==> InBuffer(y.events[i], len, q)
  }

  lemma {:induction false} DoAllInBuffer(acts: seq<nat>, from: nat, n: nat, p: nat, len: nat, k: Control, x: Effect,
                                         q: nat)
    requires from + n <= |acts| && p < len && MarksUpTo(x.marks, p, q)
    ensures var y := DoAll(acts, from, n, p, len, k, x);
      && MarksUpTo(y.marks, p, q) && Added(x, y, len, q)
      && (if Act(acts, from, n, k).1 then y.marks.bodyStart <= p + 1 else y.marks.bodyStart == x.marks.bodyStart)
    decreases n
  {
    if n > 0 && acts[from] != DONE {
      var y := Do(acts[from], p, len, k.xml || k.json, x);
      DoAllInBuffer(acts, from + 1, n - 1, p, len, Flagged(acts[from], k), y, q);
    }
  }

  lemma MoveInBuffer(t: Table, relaxed: bool, k: Control, x: Effect, s: seq<int>, i: nat, q: nat)
    requires WellFormed(t) && k.cs < |t.keyOffsets| && i < |s| && MarksUpTo(x.marks, i, q)
    ensures var y := DoMove(t, relaxed, k, x, s, i);
      && MarksUpTo(y.marks, i, q) && Added(x, y, |s|, q)
      && (if Move(t, relaxed, k, s[i]).1 == Done then y.marks.bodyStart <= i + 1
          else y.marks.bodyStart == x.marks.bodyStart)
  {
    match Cond(t, Trans(t, k.cs, s[i]), relaxed) {
      case None =>
      case Some(cond) =>
        assert CondOk(t, cond);
        var a := t.condActions[cond];
        if a != 0 { DoAllInBuffer(t.actions, a + 1, t.actions[a], i, |s|, k.(cs := t.targets[cond]), x, q); }
    }
  }

  /**
   Every mark an execution leaves and every slice it gives to a callback lies inside its buffer, but for a
   query_start left from before and what starts there, and but for the ends of field names; and body_start is
   where it was, or at most where the execution ended when that was by DONE.
   */
  lemma {:induction false} TraceInBuffer(t: Table, relaxed: bool, k: Control, x: Effect, s: seq<int>, i: nat, q: nat)
    requires WellFormed(t) && k.cs < |t.keyOffsets| && i <= |s| && |s| > 0
    requires MarksUpTo(x.marks, if i == |s| then i - 1 else i, q)
    ensures var y, r := Trace(t, relaxed, k, x, s, i), Run(t, relaxed, k, s, i);
      && MarksUpTo(y.marks, |s| - 1, q) && Added(x, y, |s|, q)
      && (if r.end == Done then y.marks.bodyStart <= i + r.used else y.marks.bodyStart == x.marks.bodyStart)
    decreases |s| - i
  {
    if i < |s| && k.cs != 0 {
      var (next, end) := Move(t, relaxed, k, s[i]);
      MoveInBuffer(t, relaxed, k, x, s, i, q);
      if end == AllRead {
        TraceInBuffer(t, relaxed, next, DoMove(t, relaxed, k, x, s, i), s, i + 1, q);
      }
    }
  }

  /** As much of it as the closing assertions of an execution need. */
  lemma MarksFit(t: Table, relaxed: bool, k: Control, x: Effect, s: seq<int>, i: nat)
    requires WellFormed(t) && k.cs < |t.keyOffsets| && i <= |s| && |s| > 0
    requires x.marks.mark == x.marks.fieldStart == x.marks.fieldLen == 0
    ensures var m, r := Trace(t, relaxed, k, x, s, i).marks, Run(t, relaxed, k, s, i);
      && m.mark < |s| && m.fieldStart < |s| && 0 <= m.fieldLen < |s|
      && (if r.end == Done then m.bodyStart <= i + r.used else m.bodyStart == x.marks.bodyStart)
  {
    TraceInBuffer(t, relaxed, k, x, s, i, x.marks.queryStart);
  }

}
