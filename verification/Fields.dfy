/** The typed fields a ByteArray can write and read back, as values: numbers and strings as bytes. */
module Fields {
  import opened Blocks
  import Bits
  import Varint

  // Fixed-width numbers.

  datatype Width = B1 | B2 | B4 | B8

  function Bytes(w: Width): nat {
    match w
    case B1 => 1
    case B2 => 2
    case B4 => 4
    case B8 => 8
  }

  /** How many values a word has. */
  function Range(w: Width): (m: nat)
    ensures m > 1 && m % 2 == 0
  {
    match w
    case B1 => 0x100
    case B2 => 0x1_0000
    case B4 => Varint.W32
    case B8 => Varint.W64
  }

  /** The k low bytes of v, least significant first. */
  function Little(v: nat, k: nat): (s: seq<Byte>)
    ensures |s| == k
  {
    if k == 0 then [] else [v % 256] + Little(v / 256, k - 1)
  }

  function FromLittle(s: seq<Byte>): nat {
    if s == [] then 0 else s[0] + 256 * FromLittle(s[1..])
  }

  function Reverse(s: seq<Byte>): (r: seq<Byte>)
    ensures |r| == |s|
  {
    if s == [] then [] else Reverse(s[1..]) + [s[0]]
  }

  function Pow256(k: nat): (p: nat)
    ensures p > 0
  {
    if k == 0 then 1 else 256 * Pow256(k - 1)
  }

  /** How a machine of one byte order or the other keeps a word in memory. */
  function Image(v: nat, w: Width, big: bool): (s: seq<Byte>)
    ensures |s| == Bytes(w)
  {
    if big then Reverse(Little(v, Bytes(w))) else Little(v, Bytes(w))
  }

  function FromImage(s: seq<Byte>, big: bool): nat {
    if big then FromLittle(Reverse(s)) else FromLittle(s)
  }

  /** byteswap. */
  function ByteSwap(v: nat, w: Width): nat {
    FromLittle(Reverse(Little(v, Bytes(w))))
  }

  /** Byte i of v, counted from the least significant. */
  function ByteOf(v: nat, i: nat): Byte {
    if i == 0 then v % 256 else ByteOf(v / 256, i - 1)
  }

  lemma {:induction false} LittleAt(v: nat, k: nat, i: nat)
    requires i < k
    ensures Little(v, k)[i] == ByteOf(v, i)
  {
    if i > 0 { LittleAt(v / 256, k - 1, i - 1); }
  }

  lemma {:induction false} ReverseAt(s: seq<Byte>, i: nat)
    requires i < |s|
    ensures Reverse(s)[i] == s[|s| - 1 - i]
  {
    if i < |s| - 1 { ReverseAt(s[1..], i); }
  }

  /** Big-endian is the most significant byte first, little-endian the least. */
  lemma ImageAt(v: nat, w: Width, big: bool, i: nat)
    requires i < Bytes(w)
    ensures Image(v, w, big)[i] == ByteOf(v, if big then Bytes(w) - 1 - i else i)
  {
    var k := Bytes(w);
    if big {
      ReverseAt(Little(v, k), i);
      LittleAt(v, k, k - 1 - i);
    } else {
      LittleAt(v, k, i);
    }
  }

  /** As in 0x01020304. */
  lemma ImageRead(i: nat)
    requires i < 4
    ensures Image(0x01020304, B4, true)[i] == i + 1 && Image(0x01020304, B4, false)[i] == 4 - i
  {
    ImageAt(0x01020304, B4, true, i);
    ImageAt(0x01020304, B4, false, i);
    FourBytes(i);
    FourBytes(3 - i);
  }

  lemma FourBytes(i: nat)
    requires i < 4
    ensures ByteOf(0x01020304, i) == 4 - i
  {
    assert ByteOf(0x01, 0) == 1 && ByteOf(0x0102, 1) == 1 && ByteOf(0x010203, 2) == 1;
    assert ByteOf(0x0102, 0) == 2 && ByteOf(0x010203, 1) == 2;
  }

  lemma {:induction false} FromLittleOfLittle(v: nat, k: nat)
    ensures FromLittle(Little(v, k)) == v % Pow256(k)
  {
    if k > 0 {
      FromLittleOfLittle(v / 256, k - 1);
      ModStep(v, Pow256(k - 1));
    } else {
      assert v % 1 == 0;
    }
  }

  lemma ModStep(v: nat, m: nat)
    requires m > 0
    ensures v % (256 * m) == v % 256 + 256 * ((v / 256) % m)
  {
    var q := v / 256;
    assert q == (q / m) * m + q % m;
    assert v == 256 * q + v % 256;
    assert v == (q / m) * (256 * m) + (256 * (q % m) + v % 256) by {
      assert 256 * ((q / m) * m) == (q / m) * (256 * m);
    }
    assert 256 * (q % m) + v % 256 < 256 * m;
    Bits.ModIs(v, q / m, 256 * (q % m) + v % 256, 256 * m);
  }

  lemma LowByte(b: Byte, t: nat)
    ensures (b + 256 * t) % 256 == b && (b + 256 * t) / 256 == t
  {
  }

  lemma {:induction false} LittleOfFromLittle(s: seq<Byte>)
    ensures Little(FromLittle(s), |s|) == s
  {
    if s != [] {
      var t := FromLittle(s[1..]);
      LowByte(s[0], t);
      LittleOfFromLittle(s[1..]);
      assert s == [s[0]] + s[1..];
    }
  }

  lemma {:induction false} ReverseLast(s: seq<Byte>, b: Byte)
    ensures Reverse(s + [b]) == [b] + Reverse(s)
  {
    if s != [] {
      assert (s + [b])[1..] == s[1..] + [b];
      ReverseLast(s[1..], b);
    }
  }

  lemma {:induction false} ReverseTwice(s: seq<Byte>)
    ensures Reverse(Reverse(s)) == s
  {
    if s != [] {
      ReverseTwice(s[1..]);
      ReverseLast(Reverse(s[1..]), s[0]);
    }
  }

  lemma RangeIs(w: Width)
    ensures Range(w) == Pow256(Bytes(w))
  {
    assert Pow256(2) == 0x1_0000 && Pow256(4) == Varint.W32;
    assert Pow256(6) == 0x1_0000_0000_0000;
    assert Pow256(8) == Varint.W64;
  }

  /** The stored bytes depend on the array's byte order only, not on the machine's. */
  lemma StoredSameOnAnyHost(v: nat, w: Width, big: bool, host: bool)
    ensures Image(if big != host then ByteSwap(v, w) else v, w, host) == Image(v, w, big)
  {
    var s := Little(v, Bytes(w));
    LittleOfFromLittle(Reverse(s));
    ReverseTwice(s);
  }

  /** And so do the numbers read back. */
  lemma LoadedSameOnAnyHost(s: seq<Byte>, w: Width, big: bool, host: bool)
    requires |s| == Bytes(w)
    ensures var v := FromImage(s, host);
      (if big != host then ByteSwap(v, w) else v) == FromImage(s, big)
  {
    LittleOfFromLittle(s);
    LittleOfFromLittle(Reverse(s));
    ReverseTwice(s);
  }

  lemma ImageRoundTrip(v: nat, w: Width, big: bool)
    ensures FromImage(Image(v, w, big), big) == v % Range(w)
  {
    ReverseTwice(Little(v, Bytes(w)));
    FromLittleOfLittle(v, Bytes(w));
    RangeIs(w);
  }

  // Fields.

  datatype NumKind =
    | Fixed(width: Width, signed: bool)
    | Zigzag(wide: bool)
    | Plain(wide: bool)

  datatype Prefix = P16 | P32 | P64 | PVint

  datatype Kind = Number(num: NumKind) | Text(prefix: Prefix)

  datatype Value = Num(n: int) | Str(s: seq<Byte>)

  datatype Field = Field(kind: Kind, value: Value)

  /** What a read of a field gives: its value and how many bytes it took, or not enough bytes. */
  datatype Got = Got(value: Value, used: nat) | Short

  function NumRange(k: NumKind): (m: nat)
    ensures m > 1 && m % 2 == 0
  {
    match k
    case Fixed(w, _) => Range(w)
    case Zigzag(wide) => Varint.Modulus(wide)
    case Plain(wide) => Varint.Modulus(wide)
  }

  predicate NumFits(k: NumKind, n: int) {
    if k.Zigzag? || (k.Fixed? && k.signed) then Varint.IsSigned(n, NumRange(k)) else 0 <= n < NumRange(k)
  }

  /** The number a string's length is written as. */
  function LengthKind(p: Prefix): NumKind {
    match p
    case P16 => Fixed(B2, false)
    case P32 => Fixed(B4, false)
    case P64 => Fixed(B8, false)
    case PVint => Plain(true)
  }

  /** The values a field's C++ type can hold. */
  predicate Typed(f: Field) {
    match f.kind
    case Number(k) => f.value.Num? && NumFits(k, f.value.n)
    case Text(p) => f.value.Str?
  }

  /** Typed, and a string no longer than its prefix can say. */
  predicate Fits(f: Field) {
    Typed(f) && (f.kind.Text? ==> NumFits(LengthKind(f.kind.prefix), |f.value.s|))
  }

  /** A number as written, first converted to the argument type of the write function. */
  function EncodeNum(k: NumKind, n: int, big: bool): (s: seq<Byte>) {
    match k
    case Fixed(w, signed) => Image(Varint.Unsigned(n, Range(w)), w, big)
    case Zigzag(wide) => Varint.Encode(Varint.ZigzagEncode(n, Varint.Modulus(wide)))
    case Plain(wide) => Varint.Encode(Varint.Unsigned(n, Varint.Modulus(wide)))
  }

  function Encode(f: Field, big: bool): (s: seq<Byte>)
    requires Typed(f)
  {
    match f.kind
    case Number(k) => EncodeNum(k, f.value.n, big)
    case Text(p) => EncodeNum(LengthKind(p), |f.value.s|, big) + f.value.s
  }

  /** A string is its length, in the width its prefix says, and then its bytes. */
  lemma TextLayout(p: Prefix, s: seq<Byte>, big: bool)
    ensures var x := Encode(Field(Text(p), Str(s)), big);
      && |x| >= |s| && x[|x| - |s|..] == s
      && (p == P16 ==> |x| == 2 + |s| && x[..2] == Image(|s| % 0x1_0000, B2, big))
      && (p == P32 ==> |x| == 4 + |s| && x[..4] == Image(|s| % 0x1_0000_0000, B4, big))
      && (p == P64 ==> |x| == 8 + |s| && x[..8] == Image(|s| % 0x1_0000_0000_0000_0000, B8, big))
      && (p == PVint && |s| < 128 ==> |x| == 1 + |s| && x[0] == |s|)
  {
    if p == PVint && |s| < 128 { Varint.WrapOnce(|s|, Varint.W64); }
  }

  datatype GotNum = GotNum(n: int, used: nat) | ShortNum

  function DecodeNum(k: NumKind, s: seq<Byte>, big: bool): GotNum {
    match k
    case Fixed(w, signed) =>
      if |s| < Bytes(w) then ShortNum
      else
        var u := FromImage(s[..Bytes(w)], big);
        GotNum(if signed then Varint.Signed(u, Range(w)) else u, Bytes(w))
    case Zigzag(wide) =>
      (match Varint.Decode(s, wide)
       case Parsed(u, used) => GotNum(Varint.ZigzagDecode(u, Varint.Modulus(wide)), used)
       case Short => ShortNum)
    case Plain(wide) =>
      (match Varint.Decode(s, wide)
       case Parsed(u, used) => GotNum(u, used)
       case Short => ShortNum)
  }

  function Decode(k: Kind, s: seq<Byte>, big: bool): Got {
    match k
    case Number(num) =>
      (match DecodeNum(num, s, big)
       case GotNum(n, used) => Got(Num(n), used)
       case ShortNum => Short)
    case Text(p) =>
      (match DecodeNum(LengthKind(p), s, big)
       case GotNum(n, used) =>
         if 0 <= n && used + n <= |s| then Got(Str(s[used..used + n]), used + n) else Short
       case ShortNum => Short)
  }

  lemma NumRoundTrip(k: NumKind, n: int, big: bool, rest: seq<Byte>)
    requires NumFits(k, n)
    ensures DecodeNum(k, EncodeNum(k, n, big) + rest, big) == GotNum(n, |EncodeNum(k, n, big)|)
  {
    var s := EncodeNum(k, n, big);
    var m := NumRange(k);
    match k {
      case Fixed(w, signed) =>
        var u := Varint.Unsigned(n, m);
        assert (s + rest)[..Bytes(w)] == s;
        ImageRoundTrip(u, w, big);
        Varint.WrapOnce(n, m);
        Varint.WrapOnce(u, m);
      case Zigzag(wide) =>
        Varint.ZigzagRoundTrip(n, m);
        Varint.DecodeEncode(Varint.ZigzagEncode(n, m), rest, wide);
      case Plain(wide) =>
        Varint.WrapOnce(n, m);
        Varint.DecodeEncode(n, rest, wide);
    }
  }

  /** A field read back is the field written, whatever follows it. */
  lemma RoundTrip(f: Field, big: bool, rest: seq<Byte>)
    requires Fits(f)
    ensures Decode(f.kind, Encode(f, big) + rest, big) == Got(f.value, |Encode(f, big)|)
  {
    match f.kind {
      case Number(k) =>
        NumRoundTrip(k, f.value.n, big, rest);
      case Text(p) =>
        var s := f.value.s;
        var prefix := EncodeNum(LengthKind(p), |s|, big);
        NumRoundTrip(LengthKind(p), |s|, big, s + rest);
        assert Encode(f, big) + rest == prefix + (s + rest);
        assert (prefix + (s + rest))[|prefix|..|prefix| + |s|] == s;
    }
  }

  /** A string longer than its prefix can say is cut to its length modulo the prefix's range. */
  lemma TextCut(p: Prefix, s: seq<Byte>, big: bool, rest: seq<Byte>)
    ensures var n := |s| % NumRange(LengthKind(p));
      n <= |s| && n < NumRange(LengthKind(p))
      && Decode(Text(p), Encode(Field(Text(p), Str(s)), big) + rest, big)
         == Got(Str(s[..n]), |EncodeNum(LengthKind(p), n, big)| + n)
      && Encode(Field(Text(p), Str(s)), big) == EncodeNum(LengthKind(p), n, big) + s
  {
    var k := LengthKind(p);
    var n := |s| % NumRange(k);
    ModAtMost(|s|, NumRange(k));
    LengthWraps(p, |s|, big);
    var prefix := EncodeNum(k, n, big);
    NumRoundTrip(k, n, big, s + rest);
    Regroup(prefix, s, rest, n);
  }

  /** Only the length modulo the prefix's range is written. */
  lemma LengthWraps(p: Prefix, n: nat, big: bool)
    ensures var k := LengthKind(p); EncodeNum(k, n, big) == EncodeNum(k, n % NumRange(k), big)
  {
    var m := NumRange(LengthKind(p));
    ModAtMost(n, m);
    Varint.WrapOnce(n % m, m);
  }

  lemma Regroup(x: seq<Byte>, s: seq<Byte>, rest: seq<Byte>, n: nat)
    requires n <= |s|
    ensures x + s + rest == x + (s + rest) && (x + (s + rest))[|x|..|x| + n] == s[..n]
  {
  }

  lemma ModAtMost(x: nat, m: nat)
    requires m > 0
    ensures 0 <= x % m <= x && x % m < m
  {
    if x < m { Varint.WrapOnce(x, m); }
  }

  /** So a string comes back whole exactly when its length fits the prefix. */
  lemma TextRoundTripExact(p: Prefix, s: seq<Byte>, big: bool, rest: seq<Byte>)
    ensures var f := Field(Text(p), Str(s));
      Decode(f.kind, Encode(f, big) + rest, big) == Got(Str(s), |Encode(f, big)|)
      <==> |s| < NumRange(LengthKind(p))
  {
    TextCut(p, s, big, rest);
    if |s| < NumRange(LengthKind(p)) {
      Varint.WrapOnce(|s|, NumRange(LengthKind(p)));
      assert s[..|s|] == s;
    }
  }

  // Lists of fields.

  predicate AllFit(fs: seq<Field>) {
    forall i :: 0 <= i < |fs| ==> Fits(fs[i])
  }

  function EncodeAll(fs: seq<Field>, big: bool): seq<Byte>
    requires AllFit(fs)
  {
    if fs == [] then [] else Encode(fs[0], big) + EncodeAll(fs[1..], big)
  }

  function Values(fs: seq<Field>): (vs: seq<Value>)
    ensures |vs| == |fs| && forall i :: 0 <= i < |fs| ==> vs[i] == fs[i].value
  {
    if fs == [] then [] else [fs[0].value] + Values(fs[1..])
  }

  function Kinds(fs: seq<Field>): (ks: seq<Kind>)
    ensures |ks| == |fs| && forall i :: 0 <= i < |fs| ==> ks[i] == fs[i].kind
  {
    if fs == [] then [] else [fs[0].kind] + Kinds(fs[1..])
  }

  datatype GotAll = GotAll(values: seq<Value>, used: nat) | ShortAll

  /** Reading fields of the given kinds one after the other. */
  function DecodeAll(ks: seq<Kind>, s: seq<Byte>, big: bool): (got: GotAll)
    ensures got.GotAll? ==> |got.values| == |ks|
  {
    if ks == [] then GotAll([], 0)
    else match Decode(ks[0], s, big)
      case Short => ShortAll
      case Got(v, used) =>
        if used > |s| then ShortAll
        else match DecodeAll(ks[1..], s[used..], big)
          case ShortAll => ShortAll
          case GotAll(vs, more) => GotAll([v] + vs, used + more)
  }

  lemma DecodeFirst(fs: seq<Field>, s: seq<Byte>, big: bool, used: nat, n: nat)
    requires fs != [] && used <= |s| && Decode(fs[0].kind, s, big) == Got(fs[0].value, used)
    requires DecodeAll(Kinds(fs[1..]), s[used..], big) == GotAll(Values(fs[1..]), n)
    ensures DecodeAll(Kinds(fs), s, big) == GotAll(Values(fs), used + n)
  {
    assert Kinds(fs)[0] == fs[0].kind && Kinds(fs)[1..] == Kinds(fs[1..]);
  }

  lemma Cut(head: seq<Byte>, tail: seq<Byte>, rest: seq<Byte>)
    ensures (head + tail) + rest == head + (tail + rest) && (head + (tail + rest))[|head|..] == tail + rest
  {
  }

  /** A list of fields read back in the same order is the list written, and ends where it ended. */
  lemma {:induction false} RoundTripAll(fs: seq<Field>, big: bool, rest: seq<Byte>)
    requires AllFit(fs)
    ensures DecodeAll(Kinds(fs), EncodeAll(fs, big) + rest, big) == GotAll(Values(fs), |EncodeAll(fs, big)|)
  {
    if fs != [] {
      var head, tail := Encode(fs[0], big), EncodeAll(fs[1..], big);
      RoundTrip(fs[0], big, tail + rest);
      RoundTripAll(fs[1..], big, rest);
      Cut(head, tail, rest);
      DecodeFirst(fs, head + (tail + rest), big, |head|, |tail|);
    }
  }

}
