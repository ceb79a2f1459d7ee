/**
 Streams over a socket that gives and takes what it likes: each call moves some of the bytes asked for, or
 fails.  What a fixed-size read or write does in the end does not depend on how the bytes came.
 */
module Streams {
  import opened Blocks
  import opened ByteArray
  import ByteArrayRuns
  import FlatBuffer
  import Varint

  function Least(a: int, b: int): int {
    if a < b then a else b
  }

  /** By its plan a read of at most max bytes, of the ahead that are there, brings r of them. */
  predicate Brings(plan: seq<int>, max: nat, ahead: nat, r: int, after: seq<int>) {
    plan != [] && r == Least(plan[0], Least(max, ahead)) && after == plan[1..]
  }

  /** A complete read of this length returns a positive int. */
  predicate LooksRead(length: nat) {
    0 < length % Varint.W32 < Varint.W32 / 2
  }

  /**
   plan says how the next calls go, one entry a call: a positive entry is the most bytes that call will
   move, any other is its error result.  An exhausted plan or exhausted input is the end of the stream.
   */
  class SocketStream {
    var connected: bool
    var incoming: seq<Byte>
    var sent: seq<Byte>
    var plan: seq<int>

    /** Recv of at most max bytes: the result and the bytes. */
    method Recv(max: nat) returns (r: int, x: seq<Byte>)
      modifies this`incoming, this`plan
      ensures old(incoming) == x + incoming && |x| <= max && (if r > 0 then |x| == r else x == [])
      ensures plan == if old(plan) == [] then [] else old(plan)[1..]
      ensures old(plan) != [] && old(plan)[0] > 0 && max > 0 && old(incoming) != [] ==> r > 0
      ensures r > 0 ==> old(plan) != [] && r == Least(old(plan)[0], Least(max, |old(incoming)|))
    {
      if plan == [] { return 0, []; }
      var c := plan[0];
      plan := plan[1..];
      if c <= 0 { return c, []; }
      r := Least(c, Least(max, |incoming|));
      x := incoming[..r];
      incoming := incoming[r..];
    }

    /** Send of x, of which some first bytes go. */
    method Send(x: seq<Byte>) returns (r: int)
      modifies this`sent, this`plan
      ensures r <= |x| && sent == old(sent) + x[..if r > 0 then r else 0]
      ensures plan == if old(plan) == [] then [] else old(plan)[1..]
      ensures old(plan) != [] && old(plan)[0] > 0 && x != [] ==> r > 0
    {
      if plan == [] { return 0; }
      var c := plan[0];
      plan := plan[1..];
      if c <= 0 { return c; }
      r := Least(c, |x|);
      sent := sent + x[..r];
    }

    /** Every one of the next n calls moves something. */
    ghost predicate Flowing(n: nat)
      reads this
    {
      connected && |plan| >= n && forall i :: 0 <= i < n ==> plan[i] > 0
    }

    /** read into memory. */
    method Read(buf: array<Byte>, at: nat, length: nat) returns (r: int)
      requires at + length <= buf.Length
      modifies this`incoming, this`plan, buf
      ensures r <= length && r <= |old(incoming)|
      ensures var n := if r > 0 then r else 0;
        incoming == old(incoming)[n..]
        && (forall i :: 0 <= i < n ==> buf[at + i] == old(incoming)[i])
        && (forall i :: 0 <= i < buf.Length && !(at <= i < at + n) ==> buf[i] == old(buf[i]))
      ensures old(Flowing(1)) && length > 0 && old(incoming) != [] ==> r > 0
      ensures plan == old(plan) || (old(plan) != [] && plan == old(plan)[1..])
      ensures r > 0 ==> Brings(old(plan), length, |old(incoming)|, r, plan)
    {
      if !connected { return -1; }
      var x;
      r, x := Recv(length);
      forall i | 0 <= i < |x| { buf[at + i] := x[i]; }
    }

    /** readFixSize into memory: its result, and how many bytes came. */
    method ReadFixSize(buf: array<Byte>, at: nat, length: nat) returns (r: int, ghost got: nat)
      requires at + length <= buf.Length
      modifies this`incoming, this`plan, buf
      ensures got <= length && got <= |old(incoming)| && incoming == old(incoming)[got..]
      ensures forall i :: 0 <= i < got ==> buf[at + i] == old(incoming)[i]
      ensures forall i :: 0 <= i < buf.Length && !(at <= i < at + got) ==> buf[i] == old(buf[i])
      ensures if got == length then r == Varint.Signed(length, Varint.W32) else r <= 0
      ensures r > 0 <==> got == length && LooksRead(length)
      ensures old(Flowing(length)) && |old(incoming)| >= length ==> got == length
    {
      var offset, left := 0, length;
      got := 0;
      while left > 0
        invariant 0 <= left && offset == got && got + left == length && got <= |old(incoming)|
        invariant incoming == old(incoming)[got..]
        invariant forall i :: 0 <= i < got ==> buf[at + i] == old(incoming)[i]
        invariant forall i :: 0 <= i < buf.Length && !(at <= i < at + got) ==> buf[i] == old(buf[i])
        invariant old(Flowing(length)) ==> Flowing(left)
      {
        var len := Read(buf, at + offset, left);
        if len <= 0 { return len, got; }
        offset := offset + len;
        left := left - len;
        got := got + len;
      }
      r := Varint.Signed(length, Varint.W32);
    }

    /** read into a ByteArray, straight into its blocks. */
    method ReadArray(ba: ByteArray, length: nat) returns (r: int, ghost x: seq<Byte>)
      requires ba.Valid() && this !in ba.Repr
      modifies this`incoming, this`plan, ba.Repr
      ensures ba.Valid() && fresh(ba.Repr - old(ba.Repr)) && this !in ba.Repr
      ensures old(incoming) == x + incoming && |x| <= length && (if r > 0 then |x| == r else x == [])
      ensures TapeOf(ba.View()) == Written(TapeOf(old(ba.View())), x)
      ensures old(Flowing(1)) && length > 0 && old(incoming) != [] ==> r > 0
      ensures plan == old(plan) || (old(plan) != [] && plan == old(plan)[1..])
    {
      if !connected {
        WrittenNothing(TapeOf(ba.View()));
        return -1, [];
      }
      var vs := Window(ba, length);
      var y;
      r, y := Recv(length);
      x := y;
      Scatter(ba, vs, y, length);
    }

    /** A further read into a ByteArray that has had `was` written since its tape was t. */
    method ReadMore(ba: ByteArray, left: nat, ghost t: ByteArrayRuns.Tape, ghost was: seq<Byte>)
      returns (r: int, ghost x: seq<Byte>)
      requires ba.Valid() && this !in ba.Repr && ByteArrayRuns.Ok(t) && TapeOf(ba.View()) == Written(t, was)
      modifies this`incoming, this`plan, ba.Repr
      ensures ba.Valid() && fresh(ba.Repr - old(ba.Repr)) && this !in ba.Repr
      ensures was + old(incoming) == x + incoming && r <= left && |x| == |was| + (if r > 0 then r else 0)
      ensures TapeOf(ba.View()) == Written(t, x)
      ensures old(Flowing(left)) && left > 0 && old(incoming) != [] ==> r > 0 && Flowing(left - r)
    {
      ghost var y;
      r, y := ReadArray(ba, left);
      WrittenTwice(t, was, y);
      x := was + y;
    }

    /** readFixSize into a ByteArray: its result, and the bytes that came. */
    method ReadFixArray(ba: ByteArray, length: nat) returns (r: int, ghost x: seq<Byte>)
      requires ba.Valid() && this !in ba.Repr
      modifies this`incoming, this`plan, ba.Repr
      ensures ba.Valid()
      ensures old(incoming) == x + incoming && |x| <= length
      ensures TapeOf(ba.View()) == Written(TapeOf(old(ba.View())), x)
      ensures if |x| == length then r == Varint.Signed(length, Varint.W32) else r <= 0
      ensures old(Flowing(length)) && |old(incoming)| >= length ==> |x| == length
    {
      ghost var t := TapeOf(ba.View());
      var left := length;
      x := [];
      WrittenNothing(t);
      while left > 0
        invariant 0 <= left && |x| + left == length && old(incoming) == x + incoming
        invariant ba.Valid() && this !in ba.Repr && fresh(ba.Repr - old(ba.Repr))
        invariant TapeOf(ba.View()) == Written(t, x)
        invariant old(Flowing(length)) ==> Flowing(left)
      {
        var len;
        len, x := ReadMore(ba, left, t, x);
        if len <= 0 { return len, x; }
        left := left - len;
      }
      r := Varint.Signed(length, Varint.W32);
    }

    /** write from a ByteArray: what it sends is what the array would read next. */
    method WriteArray(ba: ByteArray, length: nat) returns (r: int)
      requires ba.Valid() && this !in ba.Repr
      modifies this`sent, this`plan, ba`position, ba`size, ba`cur, ba`at
      ensures ba.Valid()
      ensures var t, n := TapeOf(old(ba.View())), if r > 0 then r else 0;
        n <= length && t.head + n <= |t.data|
        && sent == old(sent) + t.data[t.head..t.head + n] && TapeOf(ba.View()) == t.(head := t.head + n)
      ensures old(Flowing(1)) && length > 0 && old(ba.position < ba.size) ==> r > 0
      ensures plan == old(plan) || (old(plan) != [] && plan == old(plan)[1..])
    {
      if !connected { return -1; }
      var x := ToSend(ba, length);
      r := Send(x);
      if r > 0 { var _ := ba.SetPosition(ba.position + r); }
    }

    /** A further write from a ByteArray of which `gone` bytes have been sent since its tape was t. */
    method WriteMore(ba: ByteArray, left: nat, ghost t: ByteArrayRuns.Tape, ghost gone: nat, ghost was: seq<Byte>)
      returns (r: int)
      requires ba.Valid() && this !in ba.Repr && t.head + gone <= |t.data|
      requires TapeOf(ba.View()) == t.(head := t.head + gone) && sent == was + t.data[t.head..t.head + gone]
      modifies this`sent, this`plan, ba`position, ba`size, ba`cur, ba`at
      ensures ba.Valid()
      ensures var now := gone + (if r > 0 then r else 0);
        r <= left && t.head + now <= |t.data|
        && sent == was + t.data[t.head..t.head + now] && TapeOf(ba.View()) == t.(head := t.head + now)
      ensures old(Flowing(left)) && left > 0 && t.head + gone < |t.data| ==> r > 0 && Flowing(left - r)
    {
      r := WriteArray(ba, left);
      SliceMore(t.data, t.head, gone, gone + (if r > 0 then r else 0));
    }

    /** writeFixSize from a ByteArray: its result, and how many bytes went. */
    method WriteFixArray(ba: ByteArray, length: nat) returns (r: int, ghost gone: nat)
      requires ba.Valid() && this !in ba.Repr
      modifies this`sent, this`plan, ba`position, ba`size, ba`cur, ba`at
      ensures ba.Valid()
      ensures var t := TapeOf(old(ba.View()));
        gone <= length && t.head + gone <= |t.data|
        && sent == old(sent) + t.data[t.head..t.head + gone] && TapeOf(ba.View()) == t.(head := t.head + gone)
      ensures if gone == length then r == Varint.Signed(length, Varint.W32) else r <= 0
      ensures old(Flowing(length)) && old(ba.size - ba.position) >= length ==> gone == length
    {
      ghost var t := TapeOf(ba.View());
      var left := length;
      gone := 0;
      while left > 0
        invariant 0 <= left && gone + left == length && t.head + gone <= |t.data|
        invariant ba.Valid() && TapeOf(ba.View()) == t.(head := t.head + gone)
        invariant sent == old(sent) + t.data[t.head..t.head + gone]
        invariant old(Flowing(length)) ==> Flowing(left)
      {
        var len := WriteMore(ba, left, t, gone, old(sent));
        if len <= 0 { return len, gone; }
        left := left - len;
        gone := gone + len;
      }
      r := Varint.Signed(length, Varint.W32);
    }

    /** writeFixSize from memory: its result, and how many bytes went. */
    method WriteFixSize(buf: seq<Byte>) returns (r: int, ghost gone: nat)
      modifies this`sent, this`plan
      ensures gone <= |buf| && sent == old(sent) + buf[..gone]
      ensures if gone == |buf| then r == Varint.Signed(|buf|, Varint.W32) else r <= 0
      ensures old(Flowing(|buf|)) ==> gone == |buf|
    {
      var offset: nat, left := 0, |buf|;
      gone := 0;
      while left > 0
        invariant 0 <= left && gone == offset && offset + left == |buf|
        invariant sent == old(sent) + buf[..gone]
        invariant old(Flowing(|buf|)) ==> Flowing(left)
      {
        if !connected { return -1, gone; }
        var len := Send(buf[offset..]);
        if len <= 0 { return len, gone; }
        assert buf[..offset] + buf[offset..][..len] == buf[..offset + len];
        offset := offset + len;
        left := left - len;
        gone := gone + len;
      }
      r := Varint.Signed(|buf|, Varint.W32);
    }
  }

  /** Lays a scatter/gather list end to end, as writev sends it. */
  method Collect(vs: seq<IoVec>) returns (x: seq<Byte>)
    requires InBounds(vs)
    ensures x == Gather(vs)
  {
    x := [];
    var i := 0;
    while i < |vs|
      invariant 0 <= i <= |vs| && x + Gather(vs[i..]) == Gather(vs)
    {
      GatherFrom(vs, i, x);
      x := x + vs[i].base[vs[i].offset..vs[i].offset + vs[i].len];
      i := i + 1;
    }
    assert vs[i..] == [];
  }

  lemma GatherFrom(vs: seq<IoVec>, i: nat, x: seq<Byte>)
    requires InBounds(vs) && i < |vs|
    ensures x + Gather(vs[i..]) == x + vs[i].base[vs[i].offset..vs[i].offset + vs[i].len] + Gather(vs[i + 1..])
  {
    assert vs[i..][0] == vs[i] && vs[i..][1..] == vs[i + 1..];
  }

  /** The bytes getReadBuffers gives to send. */
  method ToSend(ba: ByteArray, length: nat) returns (x: seq<Byte>)
    requires ba.Valid()
    ensures var t := TapeOf(ba.View());
      x == t.data[t.head..t.head + FlatBuffer.Min(length, |t.data| - t.head)]
  {
    var vs, n := ba.GetReadBuffers(length);
    x := Collect(vs);
    FlatBuffer.DataSlice(ba.View(), ba.position, n);
  }

  /** getWriteBuffers changes nothing that shows on the tape. */
  method Window(ba: ByteArray, length: nat) returns (vs: seq<IoVec>)
    requires ba.Valid()
    modifies ba.Repr
    ensures ba.Valid() && fresh(ba.Repr - old(ba.Repr)) && ba.position + length <= ba.capacity
    ensures vs == Pieces(ba.nodes, ba.baseSize, ba.at, ba.position - Span(ba.at, ba.baseSize), length)
    ensures TapeOf(ba.View()) == TapeOf(old(ba.View()))
  {
    vs := ba.GetWriteBuffers(length);
  }

  /** recv's bytes go into the pieces, and a positive result moves the position. */
  method Scatter(ba: ByteArray, vs: seq<IoVec>, x: seq<Byte>, ghost length: nat)
    requires ba.Valid() && |x| <= length && ba.position + length <= ba.capacity
    requires vs == Pieces(ba.nodes, ba.baseSize, ba.at, ba.position - Span(ba.at, ba.baseSize), length)
    modifies ba.Repr
    ensures ba.Valid() && ba.Repr == old(ba.Repr)
    ensures TapeOf(ba.View()) == Written(TapeOf(old(ba.View())), x)
  {
    ghost var f := ba.View();
    ba.Fill(vs, x, length);
    ghost var g := ba.View();
    if |x| > 0 { var _ := ba.SetPosition(ba.position + |x|); }
    FillThenSeek(f, x, g);
  }

  /** Bytes put behind the cursor, and the cursor moved past them, are bytes written. */
  lemma FillThenSeek(f: FlatBuffer.Flat, x: seq<Byte>, g: FlatBuffer.Flat)
    requires FlatBuffer.Ok(f) && f.position + |x| <= |f.bytes| && g == f.(bytes := Splice(f.bytes, f.position, x))
    ensures TapeOf(FlatBuffer.Seek(g, f.position + |x|)) == Written(TapeOf(f), x)
    ensures x == [] ==> TapeOf(g) == Written(TapeOf(f), x)
  {
    assert f.bytes + [] == f.bytes;
    ByteArrayRuns.WriteOnTape(f, x, []);
  }

  function TapeOf(f: FlatBuffer.Flat): ByteArrayRuns.Tape
    requires FlatBuffer.Ok(f)
  {
    ByteArrayRuns.TapeOf(f)
  }

  /** The tape after x is written at its head. */
  function Written(t: ByteArrayRuns.Tape, x: seq<Byte>): (r: ByteArrayRuns.Tape)
    requires ByteArrayRuns.Ok(t)
    ensures ByteArrayRuns.Ok(r)
  {
    ByteArrayRuns.Step(t, ByteArrayRuns.Write(x)).0
  }

  lemma WrittenNothing(t: ByteArrayRuns.Tape)
    requires ByteArrayRuns.Ok(t)
    ensures Written(t, []) == t
  {
  }

  lemma WrittenTwice(t: ByteArrayRuns.Tape, x: seq<Byte>, y: seq<Byte>)
    requires ByteArrayRuns.Ok(t)
    ensures Written(Written(t, x), y) == Written(t, x + y)
  {
  }

  /** A stream that brings n bytes, one a call. */
  method Pouring(n: nat) returns (stream: SocketStream)
    ensures fresh(stream) && |stream.incoming| == n && stream.Flowing(n)
    ensures |stream.plan| == n && forall i :: 0 <= i < n ==> stream.plan[i] == 1
  {
    stream := new SocketStream;
    stream.connected, stream.incoming, stream.plan := true, seq(n, _ => 0), seq(n, _ => 1);
  }

  /** A complete read of 2^31 bytes looks like a failure. */
  method LargeReadLooksFailed() returns (r: int, ghost got: nat)
    ensures got == 0x8000_0000 && r < 0
  {
    var stream := Pouring(0x8000_0000);
    var buf := new Byte[0x8000_0000];
    r, got := stream.ReadFixSize(buf, 0, 0x8000_0000);
  }

}
