/** HttpSession::recvRequest: a header parsed as it comes in pieces, and the body that follows it. */
module HttpSession {
  import opened Options
  import opened Blocks
  import opened ParserTable
  import opened ParserDriver
  import opened Streams
  import FlatBuffer
  import Varint

  /** Bytes as the parser sees them: values of signed char. */
  function Chars(s: seq<Byte>): (r: seq<int>)
    ensures |r| == |s|
  {
    if s == [] then [] else Chars(s[..|s| - 1]) + [Varint.Signed(s[|s| - 1], 256)]
  }

  /** Bytes from 128 on are negative. */
  lemma {:induction false} CharsAt(s: seq<Byte>, i: nat)
    requires i < |s|
    ensures Chars(s)[i] == if s[i] < 128 then s[i] as int else s[i] as int - 256
  {
    if i < |s| - 1 { CharsAt(s[..|s| - 1], i); }
  }

  lemma {:induction false} CharsAppend(a: seq<Byte>, b: seq<Byte>)
    ensures Chars(a + b) == Chars(a) + Chars(b)
  {
    if b == [] {
      assert a + b == a;
    } else {
      assert (a + b)[..|a + b| - 1] == a + b[..|b| - 1];
      CharsAppend(a, b[..|b| - 1]);
    }
  }

  /** An entry's actions reach DONE. */
  predicate ReachesDone(acts: seq<nat>, from: nat, n: nat)
    requires from + n <= |acts|
  {
    exists i :: from <= i < from + n && acts[i] == DONE
  }

  predicate EntryDone(t: Table, cond: nat)
    requires WellFormed(t) && cond < |t.targets|
  {
    assert CondOk(t, cond);
    t.condActions[cond] != 0 && ReachesDone(t.actions, t.condActions[cond] + 1, t.actions[t.condActions[cond]])
  }

  /** As in the generated table, a transition is into a final state exactly when its actions reach DONE. */
  predicate FinalsAreDone(t: Table)
    requires WellFormed(t)
  {
    && 0 < t.start < t.firstFinal
    && forall cond :: 0 <= cond < |t.targets| ==> (t.targets[cond] >= t.firstFinal <==> EntryDone(t, cond))
  }

  lemma {:induction false} ActDone(acts: seq<nat>, from: nat, n: nat, k: Control)
    requires from + n <= |acts|
    ensures Act(acts, from, n, k).1 <==> ReachesDone(acts, from, n)
    decreases n
  {
    if n > 0 && acts[from] != DONE {
      var next := if acts[from] == XML then k.(xml := true) else if acts[from] == JSON then k.(json := true) else k;
      ActDone(acts, from + 1, n - 1, next);
    }
  }

  lemma MoveDone(t: Table, relaxed: bool, k: Control, c: int)
    requires WellFormed(t) && FinalsAreDone(t) && k.cs < |t.keyOffsets|
    ensures Move(t, relaxed, k, c).1 == Done <==> Move(t, relaxed, k, c).0.cs >= t.firstFinal
  {
    match Cond(t, Trans(t, k.cs, c), relaxed) {
      case None =>
      case Some(cond) =>
        assert CondOk(t, cond);
        if t.condActions[cond] != 0 {
          ActDone(t.actions, t.condActions[cond] + 1, t.actions[t.condActions[cond]], k.(cs := t.targets[cond]));
        }
    }
  }

  /** From a state that is not final, an execution ends in a final state exactly when it ends by DONE. */
  lemma {:induction false} RunDone(t: Table, relaxed: bool, k: Control, s: seq<int>, i: nat)
    requires WellFormed(t) && FinalsAreDone(t) && k.cs < |t.keyOffsets| && i <= |s| && k.cs < t.firstFinal
    ensures Run(t, relaxed, k, s, i).end == Done <==> Run(t, relaxed, k, s, i).control.cs >= t.firstFinal
    decreases |s| - i
  {
    if i < |s| && k.cs != 0 {
      MoveDone(t, relaxed, k, s[i]);
      if Move(t, relaxed, k, s[i]).1 == AllRead {
        RunDone(t, relaxed, Move(t, relaxed, k, s[i]).0, s, i + 1);
      }
    }
  }

  /** What the parser does with a whole input from its start state. */
  ghost function Parse(t: Table, input: seq<Byte>): Result
    requires WellFormed(t)
  {
    Run(t, false, Control(t.start, false, false), Chars(input), 0)
  }

  /** After the first c bytes of input the parser is still in the header and has read them all. */
  ghost predicate InHeader(t: Table, k: Control, input: seq<Byte>, c: nat)
    requires WellFormed(t)
  {
    && c <= |input| && 0 < k.cs < t.firstFinal && k.cs < |t.keyOffsets|
    && Parse(t, input[..c]) == Result(k, c, AllRead)
  }

  /** One more piece: still in the header, or in error, or done, for the whole input too. */
  lemma OnePiece(t: Table, k: Control, input: seq<Byte>, c: nat, n: nat)
    requires WellFormed(t) && FinalsAreDone(t) && InHeader(t, k, input, c) && c + n <= |input|
    ensures var r := Run(t, false, k, Chars(input[c..c + n]), 0);
      Parse(t, input[..c + n]).end == r.end && match r.end
      case AllRead => r.used == n && InHeader(t, r.control, input, c + n)
      case Failed => Parse(t, input).end == Failed && r.control.cs == 0
      case Done => Parse(t, input) == Result(r.control, c + r.used, Done) && r.control.cs >= t.firstFinal
  {
    var k0 := Control(t.start, false, false);
    var a, b, rest := input[..c], input[c..c + n], input[c + n..];
    RunAppend(t, false, k0, Chars(a), Chars(b));
    CharsAppend(a, b);
    assert a + b == input[..c + n] && input[..c + n] + rest == input;
    RunAppend(t, false, k0, Chars(a + b), Chars(rest));
    CharsAppend(a + b, rest);
    NotStoppedAllRead(t, false, k, Chars(b), 0);
    RunDone(t, false, k, Chars(b), 0);
  }

  /**
   How much of the input has been read, by this plan and into a buffer of this size, once the header has ended
   in it or a read has failed, when c bytes of it had been read before.
   */
  ghost function HeaderRead(t: Table, input: seq<Byte>, plan: seq<int>, size: nat, c: nat): (n: nat)
    requires WellFormed(t) && c <= |input|
    ensures c <= n <= |input|
    decreases |plan|
  {
    if plan == [] then c
    else
      var n := Positive(Least(plan[0], Least(size, |input| - c)));
      if n == 0 || Parse(t, input[..c + n]).end != AllRead then c + n
      else HeaderRead(t, input, plan[1..], size, c + n)
  }

  lemma ReadOn(t: Table, input: seq<Byte>, plan: seq<int>, size: nat, c: nat, len: nat, after: seq<int>, last: bool)
    requires WellFormed(t) && 0 < len && c + len <= |input| && Brings(plan, size, |input| - c, len, after)
    requires Parse(t, input[..c + len]).end == if last then Done else AllRead
    ensures HeaderRead(t, input, plan, size, c) == if last then c + len else HeaderRead(t, input, after, size, c + len)
  {
  }

  /** Input that ends inside the header does not end it. */
  lemma CutInHeader(t: Table, k: Control, input: seq<Byte>)
    requires WellFormed(t) && InHeader(t, k, input, |input|)
    ensures Parse(t, input).end != Done
  {
    assert input[..|input|] == input;
  }

  class HttpSession {
    const stream: SocketStream
    const t: Table

    constructor (stream: SocketStream, t: Table)
      ensures this.stream == stream && this.t == t
    {
      this.stream := stream;
      this.t := t;
    }

    /** memmove of what the parser left to the front of the buffer. */
    method MoveToFront(buf: array<Byte>, n: nat, len: nat)
      requires n <= len <= buf.Length
      modifies buf
      ensures buf[..len - n] == old(buf[n..len])
    {
      forall i | 0 <= i < len - n { buf[i] := buf[n + i]; }
    }

    /** The read of the header loop, into an empty buffer. */
    method ReadPiece(buf: array<Byte>, ghost input: seq<Byte>, ghost c: nat) returns (len: int)
      requires c <= |input| && stream.incoming == input[c..]
      modifies stream`incoming, stream`plan, buf
      ensures len <= buf.Length && c + Positive(len) <= |input| && stream.incoming == input[c + Positive(len)..]
      ensures len > 0 ==> buf[..len] == input[c..c + len]
      ensures len <= 0 ==> c == |input| || buf.Length == 0 || !old(stream.Flowing(1))
      ensures stream.plan == old(stream.plan) || (old(stream.plan) != [] && stream.plan == old(stream.plan)[1..])
      ensures len > 0 ==> Brings(old(stream.plan), buf.Length, |input| - c, len, stream.plan)
    {
      len := stream.Read(buf, 0, buf.Length);
      if len > 0 {
        forall i | 0 <= i < len ensures buf[..len][i] == input[c..][i] {
          assert buf[0 + i] == input[c..][i];
        }
        assert input[c..][..len] == input[c..c + len];
      }
    }

    /** After c bytes of the input the parser is still in the header. */
    ghost predicate Reading(parser: HttpParser, input: seq<Byte>, c: nat)
      requires WellFormed(t)
      reads parser
    {
      && parser.Valid() && parser.t == t && !parser.uriRelaxed && parser.bodyStart == 0
      && InHeader(t, parser.State(), input, c)
    }

    /** The header ended in the first c bytes, and the buffer holds the offset bytes of them that follow it. */
    ghost predicate Received(buf: array<Byte>, offset: nat, input: seq<Byte>, c: nat)
      requires WellFormed(t)
      reads buf
    {
      && Parse(t, input).end == Done && offset <= buf.Length && offset <= c <= |input|
      && c - offset == Parse(t, input).used && buf[..offset] == input[c - offset..c]
    }

    /** The rest of the header loop's body: parse what was read and keep what the parser left. */
    method ParsePiece(buf: array<Byte>, len: nat, parser: HttpParser, ghost input: seq<Byte>, ghost c: nat)
      returns (failed: bool, finished: bool, offset: nat)
      requires WellFormed(t) && FinalsAreDone(t) && Reading(parser, input, c)
      requires 0 < len <= buf.Length && c + len <= |input| && buf[..len] == input[c..c + len]
      modifies buf, parser
      ensures failed ==> Parse(t, input).end == Failed
      ensures !failed ==> Parse(t, input[..c + len]).end == if finished then Done else AllRead
      ensures !failed ==> if finished then Received(buf, offset, input, c + len) else Reading(parser, input, c + len)
    {
      OnePiece(t, parser.State(), input, c, len);
      var n, ok := parser.Execute(Chars(buf[..len]), 0);
      assert ok;
      MoveToFront(buf, n, len);
      failed, finished, offset := parser.cs == 0, parser.Finish() == 1, len - n;
      SliceOfSlice(input, c, len, n);
      if offset == buf.Length { failed := true; }
    }

    /** The body of the header loop; failed is its giving up. */
    method TakePiece(buf: array<Byte>, parser: HttpParser, ghost input: seq<Byte>, ghost c: nat)
      returns (failed: bool, finished: bool, offset: nat, ghost more: nat)
      requires WellFormed(t) && FinalsAreDone(t) && Reading(parser, input, c) && stream.incoming == input[c..]
      modifies stream`incoming, stream`plan, buf, parser
      ensures c <= more <= |input| && stream.incoming == input[more..]
      ensures failed ==> Parse(t, input).end != Done || buf.Length == 0 || (c < |input| && !old(stream.Flowing(1)))
      ensures !failed ==> if finished then Received(buf, offset, input, more) else Reading(parser, input, more)
      ensures !failed ==>
        c < more && Brings(old(stream.plan), buf.Length, |input| - c, more - c, stream.plan)
        && Parse(t, input[..more]).end == if finished then Done else AllRead
    {
      var len := ReadPiece(buf, input, c);
      more := c + Positive(len);
      if len <= 0 {
        if c == |input| { CutInHeader(t, parser.State(), input); }
        return true, false, 0, more;
      }
      failed, finished, offset := ParsePiece(buf, len, parser, input, c);
    }

    /** The same, with how much will have been read in all. */
    method NextPiece(buf: array<Byte>, parser: HttpParser, ghost input: seq<Byte>, ghost c: nat)
      returns (failed: bool, finished: bool, offset: nat, ghost more: nat)
      requires WellFormed(t) && FinalsAreDone(t) && Reading(parser, input, c) && stream.incoming == input[c..]
      modifies stream`incoming, stream`plan, buf, parser
      ensures c <= more <= |input| && stream.incoming == input[more..]
      ensures failed ==> Parse(t, input).end != Done || buf.Length == 0 || (c < |input| && !old(stream.Flowing(1)))
      ensures !failed ==> if finished then Received(buf, offset, input, more) else Reading(parser, input, more)
      ensures !failed ==> c < more
      ensures !failed ==>
        HeaderRead(t, input, old(stream.plan), buf.Length, c)
        == if finished then more else HeaderRead(t, input, stream.plan, buf.Length, more)
      ensures !failed && old(stream.Flowing(|stream.incoming|)) ==> stream.Flowing(|stream.incoming|)
    {
      failed, finished, offset, more := TakePiece(buf, parser, input, c);
      if !failed { ReadOn(t, input, old(stream.plan), buf.Length, c, more - c, stream.plan, finished); }
    }

    /** The header loop: whether a header came, what of the buffer is left over, and how much was read. */
    method RecvHeader(buf: array<Byte>) returns (finished: bool, offset: nat, ghost taken: nat)
      requires WellFormed(t) && FinalsAreDone(t)
      modifies stream`incoming, stream`plan, buf
      ensures var input, r := old(stream.incoming), Parse(t, old(stream.incoming));
        && taken <= |input| && stream.incoming == input[taken..]
        && (finished ==> Received(buf, offset, input, taken))
        && (!finished ==> r.end != Done || buf.Length == 0 || !old(stream.Flowing(|stream.incoming|)))
      ensures finished && old(stream.Flowing(|stream.incoming|)) ==> stream.Flowing(|stream.incoming|)
      ensures finished ==> taken == HeaderRead(t, old(stream.incoming), old(stream.plan), buf.Length, 0)
    {
      ghost var input := stream.incoming;
      var parser := new HttpParser(t, false);
      offset, taken, finished := 0, 0, false;
      InHeaderAtFirst(t, parser.State(), input);
      while !finished
        invariant taken <= |input| && stream.incoming == input[taken..]
        invariant if finished then Received(buf, offset, input, taken) else Reading(parser, input, taken)
        invariant fresh(parser)
        invariant old(stream.Flowing(|stream.incoming|)) ==> stream.Flowing(|stream.incoming|)
        invariant HeaderRead(t, input, old(stream.plan), buf.Length, 0)
                  == if finished then taken else HeaderRead(t, input, stream.plan, buf.Length, taken)
        decreases !finished, |input| - taken
      {
        var failed;
        failed, finished, offset, taken := NextPiece(buf, parser, input, taken);
        if failed { return false, 0, taken; }
      }
    }

    /** What of the body the header's last read already brought. */
    method TakeLeftover(buf: array<Byte>, offset: nat, body: array<Byte>) returns (len: nat)
      requires offset <= buf.Length && body != buf
      modifies body
      ensures len == FlatBuffer.Min(body.Length, offset) && body[..len] == buf[..len]
    {
      len := if body.Length >= offset then offset else body.Length;
      forall i | 0 <= i < len { body[i] := buf[i]; }
    }

    /**
     Of a body of n bytes what the buffer keeps of the header's last read is enough, or the rest, as a read of
     its own, does not look like a failure.
     */
    static predicate BodyTaken(n: int, kept: int) {
      n <= 0 || n <= kept || LooksRead(n - kept)
    }

    /** The body: what the buffer has of it, and the rest from the stream. */
    method RecvBody(buf: array<Byte>, offset: nat, contentLength: int, ghost input: seq<Byte>, ghost taken: nat)
      returns (out: Option<seq<Byte>>)
      requires offset <= buf.Length && offset <= taken <= |input| && stream.incoming == input[taken..]
      requires buf[..offset] == input[taken - offset..taken]
      modifies stream`incoming, stream`plan
      ensures out.Some? ==> Body(out.value, input, taken - offset, Positive(contentLength), stream.incoming)
      ensures out.Some? ==> BodyTaken(contentLength, offset)
      ensures taken - offset + Positive(contentLength) <= |input| && BodyTaken(contentLength, offset) ==>
        old(stream.Flowing(|stream.incoming|)) ==> out.Some?
    {
      if contentLength <= 0 { return Some([]); }
      var body := new Byte[contentLength];
      var len := TakeLeftover(buf, offset, body);
      var left := contentLength - offset;
      assert forall i :: 0 <= i < len ==> body[i] == buf[..offset][i] == input[taken - offset + i];
      if left > 0 {
        ghost var got;
        var r;
        r, got := stream.ReadFixSize(body, len, left);
        if r <= 0 { return None; }
      }
      BodyIs(body[..], input, taken - offset, len);
      return Some(body[..]);
    }

    /**
     recvRequest, for the content length that the header's callbacks found: the body it sets, if it does not
     give up.  However the header and the body were cut into reads, the body is the bytes that follow the
     header; what else the header's last read brought is lost.  It is given up, with all of it there and the
     stream flowing, exactly when the read of what the buffer has not kept looks like a failure.
     */
    method RecvRequest(bufferSize: nat, contentLength: int) returns (out: Option<seq<Byte>>)
      requires WellFormed(t) && FinalsAreDone(t)
      modifies stream`incoming, stream`plan, stream`connected
      ensures var input, r, n := old(stream.incoming), Parse(t, old(stream.incoming)), Positive(contentLength);
        && (out.Some? ==> r.end == Done && Body(out.value, input, r.used, n, stream.incoming))
        && var kept := HeaderRead(t, input, old(stream.plan), bufferSize, 0) - r.used;
        && (out.Some? ==> BodyTaken(contentLength, kept))
        && (r.end == Done && r.used + n <= |input| && bufferSize > 0 && old(stream.Flowing(|stream.incoming|)) ==>
              0 <= kept <= bufferSize && (out.Some? <==> BodyTaken(contentLength, kept)))
      ensures out.None? ==> !stream.connected
    {
      ghost var input := stream.incoming;
      var buf := new Byte[bufferSize];
      var finished, offset;
      ghost var taken;
      finished, offset, taken := RecvHeader(buf);
      if !finished {
        stream.connected := false;
        return None;
      }
      out := RecvBody(buf, offset, contentLength, input, taken);
      if out.None? { stream.connected := false; }
    }
  }

  /** A table by which any one character is a whole header. */
  function OneByteHeader(): (t: Table)
    ensures WellFormed(t) && FinalsAreDone(t)
  {
    var t := Table([], [0, 0, 0], [0, 0, 0], [0, 0, 0], [0, 0, 0], [0], [0], [1], [0], [2], [1], [0, 1, DONE], 1, 2);
    assert StateOk(t, 0) && StateOk(t, 1) && StateOk(t, 2) && TransOk(t, 0) && CondOk(t, 0);
    assert EntryDone(t, 0) by { assert ReachesDone(t.actions, 2, 1) by { assert t.actions[2] == DONE; } }
    t
  }

  lemma OneByteIsHeader(input: seq<Byte>)
    requires input != []
    ensures Parse(OneByteHeader(), input) == Result(Control(2, false, false), 1, Done)
  {
    var t, k, c := OneByteHeader(), Control(1, false, false), Chars(input)[0];
    assert Trans(t, 1, c) == 0 && Cond(t, 0, false) == Some(0);
    assert ActEntry(t, 0, Control(2, false, false)) == (Control(2, false, false), true);
  }

  /** A body of 2^31 bytes is given up although all of it comes: the buffer has kept none of it. */
  method LargeBodyLost() returns (out: Option<seq<Byte>>)
    ensures out == None
  {
    var stream := Pouring(0x8000_0001);
    var session := new HttpSession(stream, OneByteHeader());
    ghost var input := stream.incoming;
    OneByteIsHeader(input);
    OneByteIsHeader(input[..1]);
    assert HeaderRead(session.t, input, stream.plan, 1, 0) == 1;
    out := session.RecvRequest(1, 0x8000_0000);
  }

  /** The n bytes behind the header, which ends at h; the stream goes on no earlier than behind them. */
  predicate Body(body: seq<Byte>, input: seq<Byte>, h: nat, n: nat, incoming: seq<Byte>) {
    && h + n <= |input| && body == input[h..h + n]
    && |incoming| <= |input| - h - n && incoming == input[|input| - |incoming|..]
  }

  lemma InHeaderAtFirst(t: Table, k: Control, input: seq<Byte>)
    requires WellFormed(t) && FinalsAreDone(t) && k == Control(t.start, false, false)
    ensures InHeader(t, k, input, 0)
  {
    assert input[..0] == [];
  }

  /** A body of which the first len bytes came one way and the others another. */
  lemma BodyIs(body: seq<Byte>, input: seq<Byte>, h: nat, len: nat)
    requires len <= |body| && h + |body| <= |input|
    requires forall i :: 0 <= i < len ==> body[i] == input[h + i]
    requires forall i :: len <= i < |body| ==> body[i] == input[h + i]
    ensures body == input[h..h + |body|]
  {
  }

  function Positive(x: int): nat {
    if x > 0 then x else 0
  }

  lemma SliceOfSlice(s: seq<Byte>, c: nat, len: nat, n: nat)
    requires c + len <= |s| && n <= len
    ensures s[c..c + len][n..len] == s[c + n..c + len]
  {
  }

}
