/** One small table, for lines like ab:c, and what the parser makes of such a line. */
module ParserExample {
  import opened Options
  import opened ParserTable
  import opened ParserTrace

  /**
   State 1 takes the first letter of a name (action 1), 2 its other letters and the colon (action 2), 3 the first
   letter of the value (action 3), and 4 its other letters and the line's end (actions 4 and 12).
   */
  function Lines(): Table {
    Table([97, 122, 58, 97, 122, 97, 122, 10, 97, 122], [0, 0, 2, 5, 7, 10], [0, 0, 1, 0, 1, 0], [0, 1, 1, 1, 1, 0],
          [0, 1, 3, 6, 8, 11], [0, 0, 0, 0, 0, 0], [0, 0, 0, 1, 2, 0, 3, 0, 4, 5, 0, 0],
          [0, 1, 0, 1, 1, 0, 1, 0, 1, 1, 0, 0], [0, 0, 0, 0, 0, 0, 0, 0, 0, 0, 0, 0],
          [2, 3, 2, 4, 5, 4], [1, 3, 0, 5, 7, 0], [0, 1, 1, 1, 2, 1, 3, 2, 4, 12], 1, 5)
  }

  lemma StatesEmpty()
    ensures StateOk(Lines(), 0) && StateOk(Lines(), 5)
  {
  }

  lemma StatesWithRange()
    ensures StateOk(Lines(), 1) && StateOk(Lines(), 3)
  {
  }

  lemma StatesWithKey()
    ensures StateOk(Lines(), 2) && StateOk(Lines(), 4)
  {
  }

  lemma StatesOk(cs: nat)
    requires cs < 6
    ensures StateOk(Lines(), cs)
  {
    StatesEmpty();
    StatesWithRange();
    StatesWithKey();
  }

  lemma TransitionsOk(tr: nat)
    requires tr < 12
    ensures TransOk(Lines(), tr)
  {
  }

  lemma EntriesOk(cond: nat)
    requires cond < 6
    ensures CondOk(Lines(), cond)
  {
  }

  lemma LinesWellFormed()
    ensures WellFormed(Lines())
  {
    forall cs | 0 <= cs < 6 ensures StateOk(Lines(), cs) { StatesOk(cs); }
    forall tr | 0 <= tr < 12 ensures TransOk(Lines(), tr) { TransitionsOk(tr); }
    forall cond | 0 <= cond < 6 ensures CondOk(Lines(), cond) { EntriesOk(cond); }
  }

  /** The transition that each character of ab:c takes, and the entry it has. */
  lemma Transitions()
    requires WellFormed(Lines())
    ensures var t := Lines();
      && Trans(t, 1, 97) == 1 && Trans(t, 2, 98) == 4 && Trans(t, 2, 58) == 3 && Trans(t, 3, 99) == 6
      && Trans(t, 4, 10) == 8 && Trans(t, 2, 10) == 5
      && Cond(t, 1, false) == Some(0) && Cond(t, 4, false) == Some(2) && Cond(t, 3, false) == Some(1)
      && Cond(t, 6, false) == Some(3) && Cond(t, 8, false) == Some(4) && Cond(t, 5, false) == None
      && Cond(t, 1, true) == None
  {
  }

  function At(cs: nat): Control {
    Control(cs, false, false)
  }

  lemma Moves()
    requires WellFormed(Lines())
    ensures var t := Lines();
      && Move(t, false, At(1), 97) == (At(2), AllRead) && Move(t, false, At(2), 98) == (At(2), AllRead)
      && Move(t, false, At(2), 58) == (At(3), AllRead) && Move(t, false, At(3), 99) == (At(4), AllRead)
      && Move(t, false, At(4), 10) == (At(5), Done) && Move(t, false, At(2), 10) == (At(0), Failed)
      && Move(t, true, At(1), 97) == (At(0), Failed)
  {
    Transitions();
  }

  function Start(q: nat): Effect {
    Effect(Marks(0, 0, 0, q, 0, 0), [])
  }

  lemma Effects(s: seq<int>, q: nat)
    requires WellFormed(Lines()) && s == [97, 98, 58, 99, 10]
    ensures var t := Lines();
      && DoMove(t, false, At(1), Start(q), s, 0) == Start(q)
      && DoMove(t, false, At(2), Start(q), s, 1) == Start(q)
      && DoMove(t, false, At(2), Start(q), s, 2) == Effect(Marks(0, 0, 2, q, 0, 0), [])
      && DoMove(t, false, At(3), Effect(Marks(0, 0, 2, q, 0, 0), []), s, 3) == Effect(Marks(3, 0, 2, q, 0, 0), [])
      && DoMove(t, false, At(4), Effect(Marks(3, 0, 2, q, 0, 0), []), s, 4)
         == Effect(Marks(3, 0, 2, q, 5, 0), [HttpField(0, 2, 3, 1), HeaderDone(5, 0)])
  {
    Transitions();
  }

  /** A character that is just read, as the first of an execution from i on. */
  lemma ReadOne(t: Table, k: Control, x: Effect, s: seq<int>, i: nat, next: Control, y: Effect)
    requires WellFormed(t) && k.cs < |t.keyOffsets| && k.cs != 0 && i < |s|
    requires Move(t, false, k, s[i]) == (next, AllRead) && DoMove(t, false, k, x, s, i) == y
    ensures Run(t, false, k, s, i) == Later(Run(t, false, next, s, i + 1), 1)
    ensures Trace(t, false, k, x, s, i) == Trace(t, false, next, y, s, i + 1)
  {
  }

  lemma ReadLast(t: Table, k: Control, x: Effect, s: seq<int>, i: nat, next: Control, y: Effect)
    requires WellFormed(t) && k.cs < |t.keyOffsets| && k.cs != 0 && i < |s|
    requires Move(t, false, k, s[i]) == (next, Done) && DoMove(t, false, k, x, s, i) == y
    ensures Run(t, false, k, s, i) == Result(next, 1, Done) && Trace(t, false, k, x, s, i) == y
  {
  }

  /** The line ab:c is read as the field named by its first two characters, with the value its fourth. */
  lemma LineRead(s: seq<int>, q: nat)
    requires s == [97, 98, 58, 99, 10]
    ensures WellFormed(Lines()) && Run(Lines(), false, At(1), s, 0) == Result(At(5), 5, Done)
    ensures Trace(Lines(), false, At(1), Start(q), s, 0).events == [HttpField(0, 2, 3, 1), HeaderDone(5, 0)]
  {
    LinesWellFormed();
    Moves();
    Effects(s, q);
    var x, y := Effect(Marks(0, 0, 2, q, 0, 0), []), Effect(Marks(3, 0, 2, q, 0, 0), []);
    ReadAll(Lines(), s, Start(q), x, y, Effect(Marks(3, 0, 2, q, 5, 0), [HttpField(0, 2, 3, 1), HeaderDone(5, 0)]));
  }

  lemma ReadAll(t: Table, s: seq<int>, w: Effect, x: Effect, y: Effect, z: Effect)
    requires WellFormed(t) && |s| == 5 && |t.keyOffsets| == 6
    requires Move(t, false, At(1), s[0]) == (At(2), AllRead) && DoMove(t, false, At(1), w, s, 0) == w
    requires Move(t, false, At(2), s[1]) == (At(2), AllRead) && DoMove(t, false, At(2), w, s, 1) == w
    requires Move(t, false, At(2), s[2]) == (At(3), AllRead) && DoMove(t, false, At(2), w, s, 2) == x
    requires Move(t, false, At(3), s[3]) == (At(4), AllRead) && DoMove(t, false, At(3), x, s, 3) == y
    requires Move(t, false, At(4), s[4]) == (At(5), Done) && DoMove(t, false, At(4), y, s, 4) == z
    ensures Run(t, false, At(1), s, 0) == Result(At(5), 5, Done) && Trace(t, false, At(1), w, s, 0) == z
  {
    ReadLast(t, At(4), y, s, 4, At(5), z);
    ReadOne(t, At(3), x, s, 3, At(4), y);
    ReadOne(t, At(2), w, s, 2, At(3), x);
    ReadOne(t, At(2), w, s, 1, At(2), w);
    ReadOne(t, At(1), w, s, 0, At(2), w);
  }

}
