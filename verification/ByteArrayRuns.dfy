/**
 Whole runs of a ByteArray: a sequence of calls gives what the same calls give on one flat buffer, and, as long as
 the data alone decides them, what they give on a plain tape of bytes, whatever the block size is and whatever the
 unwritten bytes hold.
 */
module ByteArrayRuns {
  import opened Options
  import opened Blocks
  import opened ByteArray
  import FlatBuffer

  datatype Op = Write(x: seq<Byte>) | Read(n: nat) | SetPosition(v: nat) | Clear

  datatype Seen = Done | Bytes(s: seq<Byte>) | OutOfRange | NullCursor

  // ---- On a flat buffer -----------------------------------------------------------------------

  /** The one call without a defined result: a zero-length read at the capacity goes through a null cursor. */
  predicate HitsNull(f: FlatBuffer.Flat, op: Op) {
    op == Read(0) && f.position == |f.bytes|
  }

  /** How much the call makes the array grow. */
  function Grown(f: FlatBuffer.Flat, op: Op, b: nat): nat
    requires FlatBuffer.Ok(f) && b > 0
  {
    if op.Write? then FlatBuffer.Growth(|f.bytes| - f.position, b, |op.x|) else 0
  }

  /** One call on the flat buffer of an array of b-byte blocks; pad is what new blocks happen to hold. */
  function FlatStep(f: FlatBuffer.Flat, op: Op, pad: seq<Byte>, b: nat): (r: (FlatBuffer.Flat, Seen))
    requires FlatBuffer.Ok(f) && 0 < b <= |f.bytes| && !HitsNull(f, op) && |pad| == Grown(f, op, b)
    ensures FlatBuffer.Ok(r.0) && b <= |r.0.bytes|
  {
    match op
    case Write(x) => (FlatBuffer.Write(f, x, pad), Done)
    case Read(n) =>
      if n > FlatBuffer.ReadSize(f) then (f, OutOfRange)
      else (FlatBuffer.Read(f, n).0, Bytes(FlatBuffer.Read(f, n).1))
    case SetPosition(v) => if v > |f.bytes| then (f, OutOfRange) else (FlatBuffer.Seek(f, v), Done)
    case Clear => (FlatBuffer.Clear(f, b), Done)
  }

  /** The calls lead from f to g and show this, up to the first that goes through a null cursor. */
  ghost predicate Shows(f: FlatBuffer.Flat, ops: seq<Op>, seen: seq<Seen>, g: FlatBuffer.Flat, b: nat)
    requires FlatBuffer.Ok(f) && 0 < b <= |f.bytes|
    decreases |ops|
  {
    if ops == [] then seen == [] && g == f
    else if HitsNull(f, ops[0]) then seen == [NullCursor] && g == f
    else seen != [] && exists pad: seq<Byte> ::
      && |pad| == Grown(f, ops[0], b)
      && seen[0] == FlatStep(f, ops[0], pad, b).1
      && Shows(FlatStep(f, ops[0], pad, b).0, ops[1..], seen[1..], g, b)
  }

  lemma OneBlockAtLeast(ba: ByteArray)
    requires ba.Valid()
    ensures ba.baseSize <= ba.capacity == |ba.View().bytes|
  {
    SpanMono(1, |ba.nodes|, ba.baseSize);
  }

  ghost function FlatOf(ba: ByteArray): (f: FlatBuffer.Flat)
    requires ba.Valid()
    reads ba, ba.Repr
    ensures f == ba.View() && FlatBuffer.Ok(f) && 0 < ba.baseSize <= |f.bytes|
  {
    OneBlockAtLeast(ba);
    ba.View()
  }

  /** One call. */
  method Play(ba: ByteArray, op: Op) returns (seen: Seen, ghost pad: seq<Byte>)
    requires ba.Valid()
    modifies ba.Repr
    ensures ba.Valid() && fresh(ba.Repr - old(ba.Repr))
    ensures var f := old(FlatOf(ba));
      if HitsNull(f, op) then seen == NullCursor && FlatOf(ba) == f
      else |pad| == Grown(f, op, ba.baseSize) && (FlatOf(ba), seen) == FlatStep(f, op, pad, ba.baseSize)
  {
    seen, pad := Done, [];
    match op {
      case Write(x) =>
        ghost var c := ba.capacity;
        ba.Write(x);
        pad := ba.contents[c..];
      case Read(n) =>
        if n == 0 && ba.position == ba.capacity { return NullCursor, []; }
        var out := ba.Read(n);
        seen := if out.Some? then Bytes(out.value) else OutOfRange;
      case SetPosition(v) =>
        var ok := ba.SetPosition(v);
        seen := if ok then Done else OutOfRange;
      case Clear =>
        ba.Clear();
    }
  }

  /** Any sequence of calls on any array shows, and leaves, what it does on its flat buffer. */
  method Replay(ba: ByteArray, ops: seq<Op>) returns (seen: seq<Seen>)
    requires ba.Valid()
    modifies ba.Repr
    ensures ba.Valid() && fresh(ba.Repr - old(ba.Repr))
    ensures Shows(old(FlatOf(ba)), ops, seen, FlatOf(ba), ba.baseSize)
    decreases |ops|
  {
    if ops == [] { return []; }
    var first, pad := Play(ba, ops[0]);
    if first == NullCursor { return [NullCursor]; }
    var more := Replay(ba, ops[1..]);
    seen := [first] + more;
    assert seen[1..] == more;
  }

  // ---- On a tape ------------------------------------------------------------------------------

  /** The data and a head over it: no blocks, no capacity. */
  datatype Tape = Tape(data: seq<Byte>, head: nat)

  predicate Ok(t: Tape) {
    t.head <= |t.data|
  }

  /**
   The calls whose result the data alone decides: no zero-length read, which at the capacity goes
   through a null cursor, and no position past the data, which the capacity would have to allow.
   */
  predicate Legal(t: Tape, op: Op) {
    match op
    case Write(_) => true
    case Read(n) => n > 0
    case SetPosition(v) => v <= |t.data|
    case Clear => true
  }

  function Step(t: Tape, op: Op): (r: (Tape, Seen))
    requires Ok(t) && Legal(t, op)
    ensures Ok(r.0)
  {
    match op
    case Write(x) =>
      (Tape(t.data[..t.head] + x + (if t.head + |x| <= |t.data| then t.data[t.head + |x|..] else []),
            t.head + |x|), Done)
    case Read(n) =>
      if n > |t.data| - t.head then (t, OutOfRange)
      else (t.(head := t.head + n), Bytes(t.data[t.head..t.head + n]))
    case SetPosition(v) => (t.(head := v), Done)
    case Clear => (Tape([], 0), Done)
  }

  predicate AllLegal(t: Tape, ops: seq<Op>)
    requires Ok(t)
    decreases |ops|
  {
    ops != [] ==> Legal(t, ops[0]) && AllLegal(Step(t, ops[0]).0, ops[1..])
  }

  /** The tape after the calls, and what each of them showed. */
  function Run(t: Tape, ops: seq<Op>): (r: (Tape, seq<Seen>))
    requires Ok(t) && AllLegal(t, ops)
    decreases |ops|
    ensures Ok(r.0) && |r.1| == |ops|
  {
    if ops == [] then (t, [])
    else
      var (next, seen) := Step(t, ops[0]);
      var (last, more) := Run(next, ops[1..]);
      (last, [seen] + more)
  }

  function TapeOf(f: FlatBuffer.Flat): (t: Tape)
    requires FlatBuffer.Ok(f)
    ensures Ok(t)
  {
    Tape(FlatBuffer.Data(f), f.position)
  }

  lemma WriteOnTape(f: FlatBuffer.Flat, x: seq<Byte>, pad: seq<Byte>)
    requires FlatBuffer.Ok(f) && f.position + |x| <= |f.bytes| + |pad|
    ensures TapeOf(FlatBuffer.Write(f, x, pad)) == Step(TapeOf(f), Write(x)).0
  {
    var t, p := TapeOf(f), f.position;
    var written := Splice(f.bytes + pad, p, x);
    SpliceIsOver(f.bytes + pad, p, x);
    var data := TapeOf(FlatBuffer.Write(f, x, pad)).data;
    var expected := Step(t, Write(x)).0.data;
    assert |data| == |expected|;
    forall i | 0 <= i < |data| ensures data[i] == expected[i] {
      assert data[i] == written[i];
    }
  }

  lemma ReadOnTape(f: FlatBuffer.Flat, n: nat)
    requires FlatBuffer.Ok(f) && 0 < n <= FlatBuffer.ReadSize(f)
    ensures (TapeOf(FlatBuffer.Read(f, n).0), Bytes(FlatBuffer.Read(f, n).1)) == Step(TapeOf(f), Read(n))
  {
    assert FlatBuffer.Data(f)[f.position..f.position + n] == f.bytes[f.position..f.position + n];
  }

  lemma StepOnTape(f: FlatBuffer.Flat, op: Op, pad: seq<Byte>, b: nat)
    requires FlatBuffer.Ok(f) && 0 < b <= |f.bytes| && Legal(TapeOf(f), op) && |pad| == Grown(f, op, b)
    ensures var r := FlatStep(f, op, pad, b); (TapeOf(r.0), r.1) == Step(TapeOf(f), op)
  {
    match op
    case Write(x) => WriteOnTape(f, x, pad);
    case Read(n) => if n <= FlatBuffer.ReadSize(f) { ReadOnTape(f, n); }
    case SetPosition(_) =>
    case Clear =>
  }

  /** What calls show on a flat buffer they show on a tape, if the data alone decides them. */
  lemma {:induction false} ShowsOnTape(f: FlatBuffer.Flat, ops: seq<Op>, seen: seq<Seen>, g: FlatBuffer.Flat, b: nat)
    requires FlatBuffer.Ok(f) && 0 < b <= |f.bytes| && Shows(f, ops, seen, g, b) && AllLegal(TapeOf(f), ops)
    ensures FlatBuffer.Ok(g) && (TapeOf(g), seen) == Run(TapeOf(f), ops)
    decreases |ops|
  {
    if ops != [] {
      var pad: seq<Byte> :| |pad| == Grown(f, ops[0], b) && seen[0] == FlatStep(f, ops[0], pad, b).1
        && Shows(FlatStep(f, ops[0], pad, b).0, ops[1..], seen[1..], g, b);
      StepOnTape(f, ops[0], pad, b);
      ShowsOnTape(FlatStep(f, ops[0], pad, b).0, ops[1..], seen[1..], g, b);
      assert seen == [seen[0]] + seen[1..];
    }
  }

  /** Two arrays of any two block sizes show the same. */
  method BlockSizeNeverShows(b: nat, c: nat, ops: seq<Op>) returns (seen: seq<Seen>, other: seq<Seen>)
    requires b > 0 && c > 0 && AllLegal(Tape([], 0), ops)
    ensures seen == other == Run(Tape([], 0), ops).1
  {
    var small := new ByteArray(b);
    var large := new ByteArray(c);
    assert TapeOf(small.View()) == Tape([], 0) == TapeOf(large.View());
    ghost var f, g := FlatOf(small), FlatOf(large);
    seen := Replay(small, ops);
    ShowsOnTape(f, ops, seen, FlatOf(small), b);
    other := Replay(large, ops);
    ShowsOnTape(g, ops, other, FlatOf(large), c);
  }

}
