/** The table-driven HTTP parser: its searches, its actions and its driver loop, for any well-formed table. */
module ParserDriver {
  import opened Options
  import opened ParserTable
  import opened ParserTrace

  /** The binary search among single keys finds what looking at them one by one finds. */
  method SearchKey(ks: seq<int>, base: nat, n: nat, c: int) returns (i: nat)
    requires SortedKeys(ks, base, n)
    ensures i == FirstKey(ks, base, n, c)
  {
    var lower, upper := base, base + n - 1;
    while upper >= lower
      invariant base <= lower <= upper + 1 <= base + n
      invariant forall j :: base <= j < lower ==> ks[j] < c
      invariant forall j :: upper < j < base + n ==> ks[j] > c
      decreases upper - lower
    {
      var mid := lower + (upper - lower) / 2;
      if c < ks[mid] {
        upper := mid - 1;
      } else if c > ks[mid] {
        lower := mid + 1;
      } else {
        FirstKeyIs(ks, base, n, c, mid - base);
        return mid - base;
      }
    }
    FirstKeyIs(ks, base, n, c, n);
    return n;
  }

  /** The binary search among ranges, which steps by pairs, does too. */
  method SearchRange(ks: seq<int>, base: nat, n: nat, c: int) returns (i: nat)
    requires SortedRanges(ks, base, n)
    ensures base + 2 * n <= |ks| && i == FirstRange(ks, base, n, c)
  {
    var lower, upper := base, base + 2 * n - 2;
    ghost var lo, hi := 0, n - 1;
    while upper >= lower
      invariant 0 <= lo <= hi + 1 <= n && lower == base + 2 * lo && upper == base + 2 * hi
      invariant forall j :: 0 <= j < lo ==> High(ks, base, j) < c
      invariant forall j :: hi < j < n ==> Low(ks, base, j) > c
      decreases hi - lo
    {
      var half := (upper - lower) / 2;
      var mid := lower + (half - half % 2);
      ghost var m := lo + (hi - lo) / 2;
      assert mid == base + 2 * m && Low(ks, base, m) <= High(ks, base, m);
      if c < ks[mid] {
        assert forall j :: m < j < n ==> Low(ks, base, j) > High(ks, base, m);
        upper, hi := mid - 2, m - 1;
      } else if c > ks[mid + 1] {
        assert forall j :: 0 <= j < m ==> High(ks, base, j) < Low(ks, base, m);
        lower, lo := mid + 2, m + 1;
      } else {
        FirstRangeIs(ks, base, n, c, 0, m);
        return (mid - base) / 2;
      }
    }
    FirstRangeIs(ks, base, n, c, 0, n);
    return n;
  }

  class HttpParser {
    const t: Table
    var cs: nat
    var bodyStart: nat
    var contentLen: int
    var mark: nat
    var nread: nat
    var fieldLen: int
    var fieldStart: nat
    var queryStart: nat
    var xmlSent: bool
    var jsonSent: bool
    var uriRelaxed: bool
    var events: seq<Event>

    ghost predicate Valid()
      reads this
    {
      WellFormed(t) && cs < |t.keyOffsets|
    }

    function State(): Control
      reads this
    {
      Control(cs, xmlSent, jsonSent)
    }

    /** The marks and callbacks as they stand. */
    function Now(): Effect
      reads this
    {
      Effect(Marks(mark, fieldStart, fieldLen, queryStart, bodyStart, contentLen), events)
    }

    /** http_parser_init: it leaves query_start and uri_relaxed as they were. */
    constructor (t: Table, uriRelaxed: bool)
      requires WellFormed(t)
      ensures Valid() && this.t == t && this.uriRelaxed == uriRelaxed
      ensures State() == Control(t.start, false, false) && bodyStart == 0
    {
      this.t := t;
      this.uriRelaxed := uriRelaxed;
      cs, bodyStart, contentLen, mark, nread, fieldLen, fieldStart := t.start, 0, 0, 0, 0, 0, 0;
      xmlSent, jsonSent, events := false, false, [];
    }

    /** The search for the transition that state s takes on c. */
    method FindTrans(s: nat, c: int) returns (tr: nat)
      requires Valid() && s < |t.keyOffsets|
      ensures tr == Trans(t, s, c) && tr < |t.transOffsets|
    {
      assert StateOk(t, s);
      var base, n := t.keyOffsets[s], t.singles[s];
      var i := SearchKey(t.keys, base, n, c);
      if i < n { return t.indexOffsets[s] + i; }
      var j := SearchRange(t.keys, base + n, t.ranges[s], c);
      return t.indexOffsets[s] + n + j;
    }

    /** The search for the entry that the condition picks within a transition. */
    method FindCond(tr: nat) returns (cond: Option<nat>)
      requires Valid() && tr < |t.transOffsets|
      ensures cond == Cond(t, tr, uriRelaxed)
    {
      assert TransOk(t, tr);
      var key := CondKey(t, tr, uriRelaxed);
      var k := SearchKey(t.condKeys, t.transOffsets[tr], t.transLengths[tr], key);
      if k == t.transLengths[tr] { return None; }
      return Some(t.transOffsets[tr] + k);
    }

    /** One action; true when it ends the execution. */
    method Action(a: nat, p: nat, len: nat) returns (done: bool)
      requires fieldStart <= p && mark <= p
      modifies this`mark, this`fieldStart, this`fieldLen, this`queryStart, this`bodyStart, this`contentLen,
               this`xmlSent, this`jsonSent, this`events
      ensures done == (a == DONE) && mark <= p && fieldStart <= p
      ensures (xmlSent, jsonSent) == (old(xmlSent) || a == XML, old(jsonSent) || a == JSON)
      ensures Now() == Do(a, p, len, old(xmlSent || jsonSent), old(Now()))
    {
      done := false;
      if a == 0 || a == 3 {
        mark := p;
      } else if a == 1 {
        fieldStart := p;
      } else if a == 2 {
        fieldLen := p - fieldStart;
      } else if a == 4 {
        events := events + [HttpField(fieldStart, fieldLen, mark, p - mark)];
      } else if a == 5 || a == 6 || a == 7 || a == 10 || a == 11 {
        events := events + [Element(a, mark, p - mark)];
      } else if a == 8 {
        queryStart := p;
      } else if a == 9 {
        events := events + [Element(a, queryStart, p - queryStart)];
      } else if a == DONE {
        if xmlSent || jsonSent {
          bodyStart := mark;
          contentLen := p - bodyStart + 1;
        } else {
          bodyStart := p + 1;
          events := events + [HeaderDone(p + 1, len - p - 1)];
        }
        done := true;
      } else if a == XML {
        xmlSent := true;
      } else if a == JSON {
        jsonSent := true;
      }
    }

    /** The action loop of a matched entry. */
    method RunActions(cond: nat, p: nat, len: nat, ghost target: nat) returns (done: bool)
      requires Valid() && cond < |t.targets| && fieldStart <= p && mark <= p
      modifies this`mark, this`fieldStart, this`fieldLen, this`queryStart, this`bodyStart, this`contentLen,
               this`xmlSent, this`jsonSent, this`events
      ensures mark <= p && fieldStart <= p
      ensures (Control(target, xmlSent, jsonSent), done)
              == ActEntry(t, cond, Control(target, old(xmlSent), old(jsonSent)))
      ensures Now() == DoEntry(t, cond, p, len, Control(target, old(xmlSent), old(jsonSent)), old(Now()))
    {
      assert CondOk(t, cond);
      done := false;
      if t.condActions[cond] == 0 { return; }
      var at, left := t.condActions[cond] + 1, t.actions[t.condActions[cond]];
      ghost var k0, x0 := Control(target, xmlSent, jsonSent), Now();
      while left > 0
        invariant 0 <= left && 0 < at && at + left <= |t.actions| && !done && mark <= p && fieldStart <= p
        invariant Act(t.actions, at, left, Control(target, xmlSent, jsonSent)) == ActEntry(t, cond, k0)
        invariant DoAll(t.actions, at, left, p, len, Control(target, xmlSent, jsonSent), Now())
                  == DoEntry(t, cond, p, len, k0, x0)
      {
        done := Action(t.actions[at], p, len);
        if done { return; }
        left := left - 1;
        at := at + 1;
      }
    }

    /** One turn of the driver loop, from _resume to _again. */
    method Turn(s: nat, buffer: seq<int>, p: nat) returns (next: nat, done: bool)
      requires Valid() && 0 < s < |t.keyOffsets| && p < |buffer| && fieldStart <= p && mark <= p
      modifies this`mark, this`fieldStart, this`fieldLen, this`queryStart, this`bodyStart, this`contentLen,
               this`xmlSent, this`jsonSent, this`events
      ensures next < |t.keyOffsets| && mark <= p && fieldStart <= p
      ensures var k, k0 := Control(next, xmlSent, jsonSent), Control(s, old(xmlSent), old(jsonSent));
        Move(t, uriRelaxed, k0, buffer[p]) == (k, if done then Done else if next == 0 then Failed else AllRead)
      ensures Now() == DoMove(t, uriRelaxed, Control(s, old(xmlSent), old(jsonSent)), old(Now()), buffer, p)
    {
      var tr := FindTrans(s, buffer[p]);
      var cond := FindCond(tr);
      match cond {
        case None => return 0, false;
        case Some(i) =>
          assert CondOk(t, i);
          next := t.targets[i];
          done := RunActions(i, p, |buffer|, next);
      }
    }

    /** The driver loop. */
    method Loop(buffer: seq<int>, off: nat) returns (p: nat, s: nat, ghost end: End)
      requires Valid() && off < |buffer| && cs != 0 && fieldStart <= off && mark <= off
      modifies this`mark, this`fieldStart, this`fieldLen, this`queryStart, this`bodyStart, this`contentLen,
               this`xmlSent, this`jsonSent, this`events
      ensures s < |t.keyOffsets| && off <= p <= |buffer|
      ensures Run(t, uriRelaxed, old(State()), buffer, off) == Result(Control(s, xmlSent, jsonSent), p - off, end)
      ensures Now() == Trace(t, uriRelaxed, old(State()), old(Now()), buffer, off)
    {
      p, s, end := off, cs, AllRead;
      ghost var total := Run(t, uriRelaxed, State(), buffer, off);
      ghost var effect := Trace(t, uriRelaxed, State(), Now(), buffer, off);
      while true
        invariant off <= p < |buffer| && s < |t.keyOffsets| && s != 0 && fieldStart <= p && mark <= p
        invariant total == Later(Run(t, uriRelaxed, Control(s, xmlSent, jsonSent), buffer, p), p - off)
        invariant effect == Trace(t, uriRelaxed, Control(s, xmlSent, jsonSent), Now(), buffer, p)
        decreases |buffer| - p
      {
        var done;
        s, done := Turn(s, buffer, p);
        if done { return p + 1, s, Done; }
        if s == 0 { return p, 0, Failed; }
        p := p + 1;
        if p == |buffer| {
          return p, s, AllRead;
        }
      }
    }

    /** All of http_parser_execute but its closing assertions. */
    method Consume(buffer: seq<int>, off: nat)
      requires Valid() && off <= |buffer| && |buffer| > 0
      modifies this
      ensures Valid() && uriRelaxed == old(uriRelaxed)
      ensures var r := Run(t, uriRelaxed, old(State()), buffer, off); nread == r.used && State() == r.control
      ensures Now() == Trace(t, uriRelaxed, old(State()), Reset(old(Now())), buffer, off)
    {
      nread, mark, fieldLen, fieldStart := 0, 0, 0, 0;
      var p, s := off, cs;
      if p != |buffer| && s != 0 {
        ghost var end;
        p, s, end := Loop(buffer, off);
      }
      if cs != 0 { cs := s; }
      nread := nread + (p - off);
    }

    /**
     http_parser_execute on buffer, of which it skips the first off bytes.  ok says whether its closing
     assertions hold: they do exactly when body_start fitted the buffer before the call or the DONE action
     set it anew.
     */
    method Execute(buffer: seq<int>, off: nat) returns (n: nat, ok: bool)
      requires Valid() && off <= |buffer|
      modifies this
      ensures Valid() && uriRelaxed == old(uriRelaxed)
      ensures var r := Run(t, uriRelaxed, old(State()), buffer, off);
        && n == r.used && State() == r.control
        && (ok <==> buffer == [] || old(bodyStart) <= |buffer| || r.end == Done)
        && (if r.end == Done then bodyStart <= off + n else bodyStart == old(bodyStart))
      ensures Now() == if buffer == [] then old(Now())
                       else Trace(t, uriRelaxed, old(State()), Reset(old(Now())), buffer, off)
    {
      if |buffer| == 0 { return 0, true; }
      MarksFit(t, uriRelaxed, State(), Reset(Now()), buffer, off);
      Consume(buffer, off);
      ok := nread <= |buffer| && bodyStart <= |buffer| && mark < |buffer|
            && 0 <= fieldLen <= |buffer| && fieldStart < |buffer|;
      n := nread;
    }

    /** http_parser_finish: -1 after an error, 1 in a final state, 0 otherwise. */
    function Finish(): int
      reads this
    {
      if cs == 0 then -1 else if cs >= t.firstFinal then 1 else 0
    }
  }

}
