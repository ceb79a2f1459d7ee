/** The transition tables of the HTTP parser, and what one character or a whole input does in them. */
module ParserTable {
  import opened Options

  /** Characters and keys are signed char values; state 0 is the error state. */
  datatype Table = Table(
    keys: seq<int>, keyOffsets: seq<nat>, singles: seq<nat>, ranges: seq<nat>, indexOffsets: seq<nat>,
    condKeys: seq<int>, transOffsets: seq<nat>, transLengths: seq<nat>, condSpaces: seq<int>,
    targets: seq<nat>, condActions: seq<nat>, actions: seq<nat>, start: nat, firstFinal: nat)

  /** n keys from base on are strictly increasing. */
  predicate SortedKeys(ks: seq<int>, base: nat, n: nat) {
    base + n <= |ks| && forall i, j :: base <= i < j < base + n ==> ks[i] < ks[j]
  }

  /** n pairs from base on are ranges, disjoint and increasing: that is, the bounds only go up. */
  predicate SortedRanges(ks: seq<int>, base: nat, n: nat) {
    && base + 2 * n <= |ks|
    && (forall i :: 0 <= i < n ==> Low(ks, base, i) <= High(ks, base, i))
    && (forall i, j :: 0 <= i < j < n ==> High(ks, base, i) < Low(ks, base, j))
  }

  predicate StateOk(t: Table, cs: nat)
    requires |t.keyOffsets| == |t.singles| == |t.ranges| == |t.indexOffsets| && cs < |t.keyOffsets|
  {
    && SortedKeys(t.keys, t.keyOffsets[cs], t.singles[cs])
    && SortedRanges(t.keys, t.keyOffsets[cs] + t.singles[cs], t.ranges[cs])
    && t.indexOffsets[cs] + t.singles[cs] + t.ranges[cs] < |t.transOffsets|
  }

  predicate TransOk(t: Table, tr: nat)
    requires |t.transOffsets| == |t.transLengths| == |t.condSpaces| && tr < |t.transOffsets|
  {
    && SortedKeys(t.condKeys, t.transOffsets[tr], t.transLengths[tr])
    && t.transOffsets[tr] + t.transLengths[tr] <= |t.targets|
  }

  predicate CondOk(t: Table, cond: nat)
    requires |t.targets| == |t.condActions| && cond < |t.targets|
  {
    && t.targets[cond] < |t.keyOffsets|
    && (t.condActions[cond] != 0 ==>
          t.condActions[cond] < |t.actions|
          && t.condActions[cond] + 1 + t.actions[t.condActions[cond]] <= |t.actions|)
  }

  predicate WellFormed(t: Table) {
    && |t.keyOffsets| == |t.singles| == |t.ranges| == |t.indexOffsets|
    && |t.transOffsets| == |t.transLengths| == |t.condSpaces|
    && |t.targets| == |t.condActions|
    && 0 < t.start < |t.keyOffsets|
    && (forall cs :: 0 <= cs < |t.keyOffsets| ==> StateOk(t, cs))
    && (forall tr :: 0 <= tr < |t.transOffsets| ==> TransOk(t, tr))
    && (forall cond :: 0 <= cond < |t.targets| ==> CondOk(t, cond))
  }

  // Lookups, one key after the other.

  /** Which of the n keys from base on is the first to equal c; n when none is. */
  function FirstKey(ks: seq<int>, base: nat, n: nat, c: int): (i: nat)
    requires base + n <= |ks|
    ensures i <= n
    decreases n
  {
    if n == 0 || ks[base] == c then 0 else 1 + FirstKey(ks, base + 1, n - 1, c)
  }

  /** Which of the n ranges from base on is the first to hold c; n when none does. */
  function FirstRange(ks: seq<int>, base: nat, n: nat, c: int): (i: nat)
    requires base + 2 * n <= |ks|
    ensures i <= n
    decreases n
  {
    if n == 0 || ks[base] <= c <= ks[base + 1] then 0 else 1 + FirstRange(ks, base + 2, n - 1, c)
  }

  lemma {:induction false} FirstKeyHits(ks: seq<int>, base: nat, n: nat, c: int)
    requires base + n <= |ks| && FirstKey(ks, base, n, c) < n
    ensures ks[base + FirstKey(ks, base, n, c)] == c
    decreases n
  {
    if ks[base] != c { FirstKeyHits(ks, base + 1, n - 1, c); }
  }

  lemma {:induction false} FirstKeyIs(ks: seq<int>, base: nat, n: nat, c: int, i: nat)
    requires SortedKeys(ks, base, n) && i <= n
    requires i < n ==> ks[base + i] == c
    requires i == n ==> forall j :: base <= j < base + n ==> ks[j] != c
    ensures FirstKey(ks, base, n, c) == i
    decreases n
  {
    if n > 0 && i > 0 {
      assert ks[base] != c;
      FirstKeyIs(ks, base + 1, n - 1, c, i - 1);
    }
  }

  function Low(ks: seq<int>, base: nat, i: nat): int
    requires base + 2 * i + 1 < |ks|
  {
    ks[base + 2 * i]
  }

  function High(ks: seq<int>, base: nat, i: nat): int
    requires base + 2 * i + 1 < |ks|
  {
    ks[base + 2 * i + 1]
  }

  lemma {:induction false} FirstRangeIs(ks: seq<int>, base: nat, n: nat, c: int, from: nat, i: nat)
    requires SortedRanges(ks, base, n) && from <= i <= n
    requires i < n ==> Low(ks, base, i) <= c <= High(ks, base, i)
    requires i == n ==> forall j :: 0 <= j < n ==> c < Low(ks, base, j) || High(ks, base, j) < c
    ensures base + 2 * n <= |ks| && FirstRange(ks, base + 2 * from, n - from, c) == i - from
    decreases n - from
  {
    if from < i {
      assert c < Low(ks, base, from) || High(ks, base, from) < c;
      FirstRangeIs(ks, base, n, c, from + 1, i);
    }
  }

  // One character.

  function Trans(t: Table, cs: nat, c: int): (tr: nat)
    requires WellFormed(t) && cs < |t.keyOffsets|
    ensures tr < |t.transOffsets|
  {
    assert StateOk(t, cs);
    var base, n := t.keyOffsets[cs], t.singles[cs];
    var i := FirstKey(t.keys, base, n, c);
    if i < n then t.indexOffsets[cs] + i
    else t.indexOffsets[cs] + n + FirstRange(t.keys, base + n, t.ranges[cs], c)
  }

  function CondKey(t: Table, tr: nat, relaxed: bool): int
    requires tr < |t.condSpaces|
  {
    if t.condSpaces[tr] == 0 && relaxed then 1 else 0
  }

  /** The entry for transition tr, when its condition key has one. */
  function Cond(t: Table, tr: nat, relaxed: bool): (cond: Option<nat>)
    requires WellFormed(t) && tr < |t.transOffsets|
    ensures cond.Some? ==> cond.value < |t.targets|
  {
    assert TransOk(t, tr);
    var k := FirstKey(t.condKeys, t.transOffsets[tr], t.transLengths[tr], CondKey(t, tr, relaxed));
    if k < t.transLengths[tr] then Some(t.transOffsets[tr] + k) else None
  }

  /** The relaxed flag asks for an entry of key 1, where the transition's space lets it; otherwise the key is 0. */
  lemma CondMeans(t: Table, tr: nat, relaxed: bool)
    requires WellFormed(t) && tr < |t.transOffsets| && Cond(t, tr, relaxed).Some?
    ensures var at := Cond(t, tr, relaxed).value - t.transOffsets[tr];
      && 0 <= at < t.transLengths[tr]
      && t.transOffsets[tr] + at < |t.condKeys|
      && t.condKeys[t.transOffsets[tr] + at] == if relaxed && t.condSpaces[tr] == 0 then 1 else 0
  {
    assert TransOk(t, tr);
    FirstKeyHits(t.condKeys, t.transOffsets[tr], t.transLengths[tr], CondKey(t, tr, relaxed));
  }

  const DONE: nat := 12
  const XML: nat := 13
  const JSON: nat := 14

  /** The part of a parser's state that decides what it does next. */
  datatype Control = Control(cs: nat, xml: bool, json: bool)

  /** How an execution ends: at the end of the input, at a bad character, or by the DONE action. */
  datatype End = AllRead | Failed | Done

  datatype Result = Result(control: Control, used: nat, end: End)

  /** The n actions from `from` on in order, up to and with DONE. */
  function Act(acts: seq<nat>, from: nat, n: nat, k: Control): (r: (Control, bool))
    requires from + n <= |acts|
    ensures r.0.cs == k.cs
    decreases n
  {
    if n == 0 then (k, false)
    else if acts[from] == DONE then (k, true)
    else if acts[from] == XML then Act(acts, from + 1, n - 1, k.(xml := true))
    else if acts[from] == JSON then Act(acts, from + 1, n - 1, k.(json := true))
    else Act(acts, from + 1, n - 1, k)
  }

  /** The actions of an entry, of which index 0 stands for none. */
  function ActEntry(t: Table, cond: nat, k: Control): (r: (Control, bool))
    requires WellFormed(t) && cond < |t.targets|
    ensures r.0.cs == k.cs
  {
    assert CondOk(t, cond);
    var a := t.condActions[cond];
    if a == 0 then (k, false) else Act(t.actions, a + 1, t.actions[a], k)
  }

  /** One character: the next control state and whether execution stops there. */
  function Move(t: Table, relaxed: bool, k: Control, c: int): (r: (Control, End))
    requires WellFormed(t) && k.cs < |t.keyOffsets|
    ensures r.0.cs < |t.keyOffsets| && (r.1 == AllRead ==> r.0.cs != 0)
  {
    match Cond(t, Trans(t, k.cs, c), relaxed)
    case None => (k.(cs := 0), Failed)
    case Some(cond) =>
      assert CondOk(t, cond);
      var (after, done) := ActEntry(t, cond, k.(cs := t.targets[cond]));
      (after, if done then Done else if after.cs == 0 then Failed else AllRead)
  }

  /** The input s from i on; a bad character is not used up, the one that DONE comes with is. */
  function Run(t: Table, relaxed: bool, k: Control, s: seq<int>, i: nat): (r: Result)
    requires WellFormed(t) && k.cs < |t.keyOffsets| && i <= |s|
    ensures r.control.cs < |t.keyOffsets| && i + r.used <= |s|
    ensures r.end == Done ==> 0 < r.used
    decreases |s| - i
  {
    if i == |s| then Result(k, 0, AllRead)
    else if k.cs == 0 then Result(k, 0, Failed)
    else
      var (next, end) := Move(t, relaxed, k, s[i]);
      match end
      case Failed => Result(next, 0, Failed)
      case Done => Result(next, 1, Done)
      case AllRead => Later(Run(t, relaxed, next, s, i + 1), 1)
  }

  /** A result as seen from n characters earlier. */
  function Later(r: Result, n: nat): Result {
    Result(r.control, r.used + n, r.end)
  }

  /** Unless it failed or was done, an execution used up everything it was given. */
  lemma {:induction false} NotStoppedAllRead(t: Table, relaxed: bool, k: Control, s: seq<int>, i: nat)
    requires WellFormed(t) && k.cs < |t.keyOffsets| && i <= |s|
    ensures var r := Run(t, relaxed, k, s, i);
      (r.end == AllRead ==> i + r.used == |s| && (k.cs != 0 ==> r.control.cs != 0))
      && (r.end == Failed ==> i + r.used < |s| && r.control.cs == 0)
    decreases |s| - i
  {
    if i < |s| && k.cs != 0 && Move(t, relaxed, k, s[i]).1 == AllRead {
      NotStoppedAllRead(t, relaxed, Move(t, relaxed, k, s[i]).0, s, i + 1);
    }
  }

  function Then(r: Result, more: Result): Result {
    if r.end != AllRead then r else Result(more.control, r.used + more.used, more.end)
  }

  lemma {:induction false} RunShift(t: Table, relaxed: bool, k: Control, a: seq<int>, b: seq<int>, i: nat)
    requires WellFormed(t) && k.cs < |t.keyOffsets| && i <= |b|
    ensures Run(t, relaxed, k, a + b, |a| + i) == Run(t, relaxed, k, b, i)
    decreases |b| - i
  {
    if i < |b| && k.cs != 0 && Move(t, relaxed, k, b[i]).1 == AllRead {
      RunShift(t, relaxed, Move(t, relaxed, k, b[i]).0, a, b, i + 1);
    }
  }

  /** What stops inside a stops there whatever comes behind. */
  lemma {:induction false} RunStops(t: Table, relaxed: bool, k: Control, a: seq<int>, s: seq<int>, i: nat)
    requires WellFormed(t) && k.cs < |t.keyOffsets| && i <= |a| && a <= s
    requires Run(t, relaxed, k, a, i).end != AllRead
    ensures Run(t, relaxed, k, s, i) == Run(t, relaxed, k, a, i)
    decreases |a| - i
  {
    assert s[i] == a[i];
    if k.cs != 0 && Move(t, relaxed, k, a[i]).1 == AllRead {
      RunStops(t, relaxed, Move(t, relaxed, k, a[i]).0, a, s, i + 1);
    }
  }

  /** What reads all of a goes on behind it. */
  lemma {:induction false} RunGoesOn(t: Table, relaxed: bool, k: Control, a: seq<int>, s: seq<int>, i: nat)
    requires WellFormed(t) && k.cs < |t.keyOffsets| && i <= |a| && a <= s
    requires Run(t, relaxed, k, a, i).end == AllRead
    ensures var r := Run(t, relaxed, k, a, i);
      Run(t, relaxed, k, s, i) == Later(Run(t, relaxed, r.control, s, |a|), r.used)
    decreases |a| - i
  {
    if i < |a| {
      assert s[i] == a[i];
      RunGoesOn(t, relaxed, Move(t, relaxed, k, a[i]).0, a, s, i + 1);
    }
  }

  /** Giving an input in two pieces is giving it whole: same state, same characters used, same end. */
  lemma RunAppend(t: Table, relaxed: bool, k: Control, a: seq<int>, b: seq<int>)
    requires WellFormed(t) && k.cs < |t.keyOffsets|
    ensures var r := Run(t, relaxed, k, a, 0);
      Run(t, relaxed, k, a + b, 0) == Then(r, Run(t, relaxed, r.control, b, 0))
  {
    var r := Run(t, relaxed, k, a, 0);
    if r.end != AllRead {
      RunStops(t, relaxed, k, a, a + b, 0);
    } else {
      RunGoesOn(t, relaxed, k, a, a + b, 0);
      RunShift(t, relaxed, r.control, a, b, 0);
    }
  }

  /** Any way of cutting an input into pieces. */
  function Joined(pieces: seq<seq<int>>): seq<int> {
    if pieces == [] then [] else pieces[0] + Joined(pieces[1..])
  }

  /** One execution per piece, stopping at the first that does not just read it all. */
  function RunPieces(t: Table, relaxed: bool, k: Control, pieces: seq<seq<int>>): (r: Result)
    requires WellFormed(t) && k.cs < |t.keyOffsets|
    decreases |pieces|
  {
    if pieces == [] then Result(k, 0, AllRead)
    else
      var r := Run(t, relaxed, k, pieces[0], 0);
      if r.end != AllRead then r else Then(r, RunPieces(t, relaxed, r.control, pieces[1..]))
  }

  /** However an input is cut, the pieces together do what the whole does. */
  lemma {:induction false} CutsDoNotShow(t: Table, relaxed: bool, k: Control, pieces: seq<seq<int>>)
    requires WellFormed(t) && k.cs < |t.keyOffsets|
    ensures RunPieces(t, relaxed, k, pieces) == Run(t, relaxed, k, Joined(pieces), 0)
    decreases |pieces|
  {
    if pieces != [] {
      var r := Run(t, relaxed, k, pieces[0], 0);
      RunAppend(t, relaxed, k, pieces[0], Joined(pieces[1..]));
      CutsDoNotShow(t, relaxed, r.control, pieces[1..]);
    }
  }

}
