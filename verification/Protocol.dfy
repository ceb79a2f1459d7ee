/** The messages of the RPC protocol, serialized as a type byte and a list of ByteArray fields. */
module Protocol {
  import opened Blocks
  import opened ByteArray
  import FlatBuffer
  import opened Fields
  import opened Codecs
  import Varint

  datatype Message =
    | Request(sn: nat, cmd: nat)
    | Response(sn: nat, cmd: nat, result: nat, resultStr: seq<Byte>)
    | Notify(notify: nat)

  /** The values the C++ fields can hold. */
  predicate Typed(m: Message) {
    match m
    case Request(sn, cmd) => sn < Varint.W32 && cmd < Varint.W32
    case Response(sn, cmd, result, s) =>
      sn < Varint.W32 && cmd < Varint.W32 && result < Varint.W32 && |s| < Varint.W64
    case Notify(n) => n < Varint.W32
  }

  function TypeOf(m: Message): nat {
    match m
    case Request(_, _) => 1
    case Response(_, _, _, _) => 2
    case Notify(_) => 3
  }

  const UINT32: Kind := Number(Plain(false))
  const TYPE_BYTE: Kind := Number(Fixed(B1, false))

  /** What follows the type byte. */
  function Body(m: Message): (fs: seq<Field>)
    requires Typed(m)
    ensures AllFit(fs)
  {
    match m
    case Request(sn, cmd) => [Field(UINT32, Num(sn)), Field(UINT32, Num(cmd))]
    case Response(sn, cmd, result, s) =>
      [Field(UINT32, Num(sn)), Field(UINT32, Num(cmd)), Field(UINT32, Num(result)), Field(Text(PVint), Str(s))]
    case Notify(n) => [Field(UINT32, Num(n))]
  }

  function Whole(m: Message): (fs: seq<Field>)
    requires Typed(m)
    ensures AllFit(fs)
  {
    [Field(TYPE_BYTE, Num(TypeOf(m)))] + Body(m)
  }

  /** The fields the parser of a message type reads, in its order. */
  function KindsFor(t: int): seq<Kind> {
    if t == 1 then [UINT32, UINT32]
    else if t == 2 then [UINT32, UINT32, UINT32, Text(PVint)]
    else [UINT32]
  }

  function NumOf(v: Value): nat {
    if v.Num? && v.n >= 0 then v.n else 0
  }

  function StrOf(v: Value): seq<Byte> {
    if v.Str? then v.s else []
  }

  /** The message a parser makes of the values it read. */
  function FromValues(t: int, vs: seq<Value>): Message
    requires |vs| == |KindsFor(t)|
  {
    if t == 1 then Request(NumOf(vs[0]), NumOf(vs[1]))
    else if t == 2 then Response(NumOf(vs[0]), NumOf(vs[1]), NumOf(vs[2]), StrOf(vs[3]))
    else Notify(NumOf(vs[0]))
  }

  lemma BodyOf(m: Message)
    requires Typed(m)
    ensures Kinds(Body(m)) == KindsFor(TypeOf(m)) && FromValues(TypeOf(m), Values(Body(m))) == m
    ensures Kinds(Whole(m)) == [TYPE_BYTE] + KindsFor(TypeOf(m))
    ensures Values(Whole(m)) == [Num(TypeOf(m))] + Values(Body(m))
  {
    assert Whole(m)[1..] == Body(m);
  }

  lemma {:induction false} SmallNumber(n: nat, big: bool)
    requires n < 128
    ensures EncodeNum(Plain(false), n, big) == [n] && EncodeNum(Fixed(B1, false), n, big) == [n]
  {
    Varint.WrapOnce(n, Varint.W32);
    Varint.WrapOnce(n, 256);
    assert Little(n, 1) == [n % 256] + Little(n / 256, 0) == [n];
    assert Reverse([n]) == Reverse([n][1..]) + [n] == [n];
  }

  /** A small number at the front of a list of fields. */
  lemma FrontNumber(fs: seq<Field>, n: nat, big: bool, rest: seq<Byte>)
    requires fs != [] && AllFit(fs) && n < 128 && fs[0].value == Num(n)
    requires fs[0].kind == UINT32 || fs[0].kind == TYPE_BYTE
    requires EncodeAll(fs[1..], big) == rest
    ensures EncodeAll(fs, big) == [n] + rest
  {
    SmallNumber(n, big);
  }

  /** The bytes of messages whose numbers and string are small: type, and then the fields in order. */
  lemma RequestBytes(sn: nat, cmd: nat, big: bool)
    requires sn < 128 && cmd < 128
    ensures EncodeAll(Whole(Request(sn, cmd)), big) == [1, sn, cmd]
  {
    var fs := Whole(Request(sn, cmd));
    assert fs[1..][1..][1..] == [];
    FrontNumber(fs[1..][1..], cmd, big, []);
    FrontNumber(fs[1..], sn, big, [cmd]);
    FrontNumber(fs, 1, big, [sn, cmd]);
  }

  lemma NotifyBytes(n: nat, big: bool)
    requires n < 128
    ensures EncodeAll(Whole(Notify(n)), big) == [3, n]
  {
    var fs := Whole(Notify(n));
    assert fs[1..][1..] == [];
    FrontNumber(fs[1..], n, big, []);
    FrontNumber(fs, 3, big, [n]);
  }

  lemma OnlyText(fs: seq<Field>, s: seq<Byte>, big: bool)
    requires |s| < 128 && fs == [Field(Text(PVint), Str(s))] && AllFit(fs)
    ensures EncodeAll(fs, big) == [|s|] + s
  {
    TextLayout(PVint, s, big);
    var x := Encode(fs[0], big);
    assert x == [|s|] + s;
    assert fs[1..] == [] && EncodeAll(fs, big) == x + [] == x;
  }

  lemma ResponseBytes(sn: nat, cmd: nat, result: nat, s: seq<Byte>, big: bool)
    requires sn < 128 && cmd < 128 && result < 128 && |s| < 128
    ensures EncodeAll(Whole(Response(sn, cmd, result, s)), big) == [2] + ([sn] + ([cmd] + ([result] + ([|s|] + s))))
  {
    var fs := Whole(Response(sn, cmd, result, s));
    var tail := [|s|] + s;
    OnlyText(fs[1..][1..][1..][1..], s, big);
    FrontNumber(fs[1..][1..][1..], result, big, tail);
    FrontNumber(fs[1..][1..], cmd, big, [result] + tail);
    FrontNumber(fs[1..], sn, big, [cmd] + ([result] + tail));
    FrontNumber(fs, 2, big, [sn] + ([cmd] + ([result] + tail)));
  }

  /** serializeToByteArray. */
  method Serialize(ba: ByteArray, m: Message, hostBig: bool)
    requires ba.Valid() && Typed(m)
    modifies ba.Repr
    ensures ba.Valid() && fresh(ba.Repr - old(ba.Repr)) && ba.bigEndian == old(ba.bigEndian)
    ensures FlatBuffer.Wrote(old(ba.View()), EncodeAll(Whole(m), ba.bigEndian), ba.View(), ba.baseSize)
  {
    WriteAll(ba, Whole(m), hostBig);
  }

  function AsMessage(t: int, vs: Outcome<seq<Value>>): Outcome<Message>
    requires vs.Ok? ==> |vs.value| == |KindsFor(t)|
  {
    match vs
    case Ok(x) => Ok(FromValues(t, x))
    case OutOfRange => OutOfRange
    case NullCursor => NullCursor
  }

  /** parseFromByteArray, for the type the type byte said. */
  method Parse(ba: ByteArray, t: int, hostBig: bool) returns (out: Outcome<Message>, ghost vs: Outcome<seq<Value>>)
    requires ba.Valid()
    modifies ba`position, ba`cur, ba`at
    ensures ba.Valid() && AllAs(KindsFor(t), old(ba.View()), ba.bigEndian, vs, ba.View())
    ensures (vs.Ok? ==> |vs.value| == |KindsFor(t)|) && out == AsMessage(t, vs)
  {
    var x := ReadAll(ba, KindsFor(t), hostBig);
    return AsMessage(t, x), x;
  }

  /** The type byte is the first thing to be read where a message starts. */
  lemma TypeFirst(m: Message, f: FlatBuffer.Flat, g: FlatBuffer.Flat, big: bool, b: nat)
    requires Typed(m) && FlatBuffer.Wrote(f, EncodeAll(Whole(m), big), g, b)
    ensures var back := FlatBuffer.Seek(g, f.position);
      Rest(back) != [] && Decode(TYPE_BYTE, Rest(back), big) == Got(Num(TypeOf(m)), 1)
  {
    var x, head := EncodeAll(Whole(m), big), Encode(Whole(m)[0], big);
    RestAtStart(f, x, g, b);
    var rest := g.bytes[g.position..g.size];
    var tail := EncodeAll(Whole(m)[1..], big);
    assert x + rest == head + (tail + rest);
    RoundTrip(Whole(m)[0], big, tail + rest);
  }

  /** A response with an empty result string. */
  predicate NoResult(m: Message) {
    m.Response? && m.resultStr == []
  }

  /** Reading what was serialized gives the message back, given how the fields after the type byte read. */
  lemma Received(m: Message, f: FlatBuffer.Flat, g: FlatBuffer.Flat, big: bool, b: nat,
                 vs: Outcome<seq<Value>>, h: FlatBuffer.Flat)
    requires Typed(m) && FlatBuffer.Wrote(f, EncodeAll(Whole(m), big), g, b)
    requires FlatBuffer.Ok(Moved(FlatBuffer.Seek(g, f.position), 1))
    requires AllAs(KindsFor(TypeOf(m)), Moved(FlatBuffer.Seek(g, f.position), 1), big, vs, h)
    ensures vs.Ok? ==> |vs.value| == |KindsFor(TypeOf(m))|
    ensures if NoResult(m) && g.position == |g.bytes| then AsMessage(TypeOf(m), vs) == NullCursor
            else AsMessage(TypeOf(m), vs) == Ok(m) && h.position == g.position
    ensures g.position == f.position + |EncodeAll(Whole(m), big)|
  {
    var back, t := FlatBuffer.Seek(g, f.position), Num(TypeOf(m));
    TypeFirst(m, f, g, big, b);
    RestAtStart(f, EncodeAll(Whole(m), big), g, b);
    BodyOf(m);
    assert Kinds(Whole(m))[1..] == KindsFor(TypeOf(m));
    OneField(Kinds(Whole(m)), back, big, t, 1, vs, h);
    Conclude(Whole(m), f, g, big, b, Cons(t, vs), h);
    if vs.Ok? { assert ([t] + vs.value)[1..] == vs.value && ([t] + Values(Body(m)))[1..] == Values(Body(m)); }
  }

  /** Serializes a message, moves back to its first byte, and reads the type byte. */
  method SendType(ba: ByteArray, m: Message, hostBig: bool) returns (t: nat, ghost g: FlatBuffer.Flat)
    requires ba.Valid() && Typed(m)
    modifies ba.Repr
    ensures ba.Valid() && ba.bigEndian == old(ba.bigEndian) && t == TypeOf(m)
    ensures FlatBuffer.Wrote(old(ba.View()), EncodeAll(Whole(m), ba.bigEndian), g, ba.baseSize)
    ensures FillsUp(old(ba.capacity), g.position, ba.baseSize) <==> g.position == |g.bytes|
    ensures ba.View() == Moved(FlatBuffer.Seek(g, old(ba.position)), 1)
  {
    var start := ba.position;
    Serialize(ba, m, hostBig);
    g := ba.View();
    FillsUpIs(ba, old(ba.View()), EncodeAll(Whole(m), ba.bigEndian), g);
    TypeFirst(m, old(ba.View()), g, ba.bigEndian, ba.baseSize);
    var _ := ba.SetPosition(start);
    var v := ReadField(ba, TYPE_BYTE, hostBig);
    t := NumOf(v.value);
  }

  /** The outcome of serializing m at start and parsing it again. */
  predicate MessageBack(m: Message, big: bool, start: nat, capacity: nat, b: nat, out: Outcome<Message>, position: nat)
    requires Typed(m) && b > 0
  {
    var end := start + |EncodeAll(Whole(m), big)|;
    if NoResult(m) && FillsUp(capacity, end, b) then out == NullCursor
    else out == Ok(m) && position == end
  }

  lemma JudgeMessage(m: Message, big: bool, start: nat, capacity: nat, b: nat, end: nat, after: nat,
                     out: Outcome<Message>, position: nat)
    requires Typed(m) && b > 0 && end == start + |EncodeAll(Whole(m), big)|
    requires FillsUp(capacity, end, b) <==> end == after
    requires if NoResult(m) && end == after then out == NullCursor else out == Ok(m) && position == end
    ensures MessageBack(m, big, start, capacity, b, out, position)
  {
  }

  /**
   A message serialized anywhere in any array and parsed after its type byte is the message, and the
   cursor ends where the serializing ended; but an empty result string at the very end of the last
   block is read through a null cursor.
   */
  method RoundTripMessage(ba: ByteArray, m: Message, hostBig: bool) returns (out: Outcome<Message>)
    requires ba.Valid() && Typed(m)
    modifies ba.Repr
    ensures ba.Valid()
    ensures MessageBack(m, old(ba.bigEndian), old(ba.position), old(ba.capacity), ba.baseSize, out, ba.position)
  {
    ghost var f := ba.View();
    var t, g := SendType(ba, m, hostBig);
    ghost var vs;
    out, vs := Parse(ba, t, hostBig);
    Received(m, f, g, ba.bigEndian, ba.baseSize, vs, ba.View());
    JudgeMessage(m, ba.bigEndian, f.position, |f.bytes|, ba.baseSize, g.position, |g.bytes|, out, ba.position);
  }

}
