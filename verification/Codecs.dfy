/** The typed read and write functions of ByteArray, over its cursor. */
module Codecs {
  import opened Options
  import opened Blocks
  import opened ByteArray
  import FlatBuffer
  import opened Fields
  import Bits
  import Varint

  /** How a read ends: a value, the out_of_range exception, or a null block taken as the cursor's. */
  datatype Outcome<+T> = Ok(value: T) | OutOfRange | NullCursor

  /** What can be read from the cursor on. */
  function Rest(f: FlatBuffer.Flat): seq<Byte>
    requires FlatBuffer.Ok(f)
  {
    f.bytes[f.position..f.size]
  }

  lemma FrontOfRest(f: FlatBuffer.Flat, n: nat)
    requires FlatBuffer.Ok(f) && f.position + n <= f.size
    ensures Rest(f)[..n] == f.bytes[f.position..f.position + n]
  {
  }

  /** f with its cursor moved on by n. */
  function Moved(f: FlatBuffer.Flat, n: nat): FlatBuffer.Flat {
    f.(position := f.position + n)
  }

  /** write, with what it writes as one word of the typed layer. */
  method Put(ba: ByteArray, x: seq<Byte>)
    requires ba.Valid()
    modifies ba.Repr
    ensures ba.Valid() && fresh(ba.Repr - old(ba.Repr)) && ba.bigEndian == old(ba.bigEndian)
    ensures FlatBuffer.Wrote(old(ba.View()), x, ba.View(), ba.baseSize)
  {
    ba.Write(x);
    FlatBuffer.WriteIsWrote(old(ba.View()), x, ba.View(), ba.baseSize);
  }

  /** writeFint8 to writeFuint64, on a machine of either byte order. */
  method WriteFixed(ba: ByteArray, k: NumKind, n: int, hostBig: bool)
    requires ba.Valid() && k.Fixed?
    modifies ba.Repr
    ensures ba.Valid() && fresh(ba.Repr - old(ba.Repr)) && ba.bigEndian == old(ba.bigEndian)
    ensures FlatBuffer.Wrote(old(ba.View()), EncodeNum(k, n, ba.bigEndian), ba.View(), ba.baseSize)
  {
    var v := Varint.Unsigned(n, Range(k.width));
    StoredSameOnAnyHost(v, k.width, ba.bigEndian, hostBig);
    if ba.bigEndian != hostBig { v := ByteSwap(v, k.width); }
    Put(ba, Image(v, k.width, hostBig));
  }

  /** The loop of writeUint32 and writeUint64 into the temporary buffer. */
  method FillVarint(tmp: array<Byte>, v: nat) returns (i: nat)
    requires |Varint.Encode(v)| <= tmp.Length
    modifies tmp
    ensures i <= tmp.Length && tmp[..i] == Varint.Encode(v)
  {
    var value := v;
    i := 0;
    while value >= 0x80
      invariant i + |Varint.Encode(value)| <= tmp.Length
      invariant tmp[..i] + Varint.Encode(value) == Varint.Encode(v)
      decreases value
    {
      Bits.SevenBits(value);
      tmp[i] := Bits.Or(Bits.And(value, 0x7F), 0x80);
      i := i + 1;
      value := value / 128;
    }
    tmp[i] := value;
    i := i + 1;
  }

  method WriteVarint(ba: ByteArray, v: nat, wide: bool)
    requires ba.Valid() && v < Varint.Modulus(wide)
    modifies ba.Repr
    ensures ba.Valid() && fresh(ba.Repr - old(ba.Repr)) && ba.bigEndian == old(ba.bigEndian)
    ensures FlatBuffer.Wrote(old(ba.View()), Varint.Encode(v), ba.View(), ba.baseSize)
  {
    Varint.EncodeFits(v, wide);
    var tmp := new Byte[Varint.MaxBytes(wide)];
    var i := FillVarint(tmp, v);
    Put(ba, tmp[..i]);
  }

  /** Any of the number writes. */
  method WriteNum(ba: ByteArray, k: NumKind, n: int, hostBig: bool)
    requires ba.Valid()
    modifies ba.Repr
    ensures ba.Valid() && fresh(ba.Repr - old(ba.Repr)) && ba.bigEndian == old(ba.bigEndian)
    ensures FlatBuffer.Wrote(old(ba.View()), EncodeNum(k, n, ba.bigEndian), ba.View(), ba.baseSize)
  {
    match k {
      case Fixed(_, _) => WriteFixed(ba, k, n, hostBig);
      case Zigzag(wide) => WriteVarint(ba, Varint.ZigzagEncode(n, Varint.Modulus(wide)), wide);
      case Plain(wide) => WriteVarint(ba, Varint.Unsigned(n, Varint.Modulus(wide)), wide);
    }
  }

  /** Any of the field writes; a string is its length and then its bytes. */
  method WriteField(ba: ByteArray, f: Field, hostBig: bool)
    requires ba.Valid() && Typed(f)
    modifies ba.Repr
    ensures ba.Valid() && fresh(ba.Repr - old(ba.Repr)) && ba.bigEndian == old(ba.bigEndian)
    ensures FlatBuffer.Wrote(old(ba.View()), Encode(f, ba.bigEndian), ba.View(), ba.baseSize)
  {
    match f.kind {
      case Number(k) => WriteNum(ba, k, f.value.n, hostBig);
      case Text(p) =>
        WriteNum(ba, LengthKind(p), |f.value.s|, hostBig);
        ghost var middle := ba.View();
        Put(ba, f.value.s);
        FlatBuffer.WroteMore(old(ba.View()), EncodeNum(LengthKind(p), |f.value.s|, ba.bigEndian), middle,
                             f.value.s, ba.View(), ba.baseSize);
    }
  }

  /** read: a zero-length read at the end of the last block goes through a null cursor. */
  method Take(ba: ByteArray, n: nat) returns (out: Outcome<seq<Byte>>)
    requires ba.Valid()
    modifies ba`position, ba`cur, ba`at
    ensures ba.Valid()
    ensures var f := old(ba.View());
      if n > |Rest(f)| then out == OutOfRange && ba.View() == f
      else if n == 0 && f.position == |f.bytes| then out == NullCursor && ba.View() == f
      else out == Ok(Rest(f)[..n]) && ba.View() == Moved(f, n)
  {
    if n == 0 && ba.position == ba.capacity { return NullCursor; }
    var x := ba.Read(n);
    match x {
      case None => return OutOfRange;
      case Some(s) =>
        FrontOfRest(old(ba.View()), n);
        return Ok(s);
    }
  }

  /** readFint8 to readFuint64, on a machine of either byte order. */
  method ReadFixed(ba: ByteArray, k: NumKind, hostBig: bool) returns (out: Outcome<int>)
    requires ba.Valid() && k.Fixed?
    modifies ba`position, ba`cur, ba`at
    ensures ba.Valid()
    ensures match DecodeNum(k, Rest(old(ba.View())), ba.bigEndian)
      case GotNum(n, used) => out == Ok(n) && ba.View() == Moved(old(ba.View()), used)
      case ShortNum => out == OutOfRange && ba.View() == old(ba.View())
  {
    var x := Take(ba, Bytes(k.width));
    if x.OutOfRange? { return OutOfRange; }
    LoadedSameOnAnyHost(x.value, k.width, ba.bigEndian, hostBig);
    var v := FromImage(x.value, hostBig);
    if ba.bigEndian != hostBig { v := ByteSwap(v, k.width); }
    return Ok(if k.signed then Varint.Signed(v, Range(k.width)) else v);
  }

  lemma Multiples(g: nat, p: nat, t: nat, q: nat, r: nat)
    requires g == q * t + r && r < t
    ensures g * p == q * (p * t) + r * p && r * p + p <= p * t
  {
    assert (q * t) * p == q * (p * t);
    assert (r + 1) * p <= t * p;
  }

  lemma SumInWord(partial: nat, x: nat, q: nat, y: nat, p: nat, w: nat)
    requires x == q * w + y && y + p <= w && partial < p
    ensures x % w == y && (partial + x) % w == partial + y && partial % w == partial
  {
    Bits.ModIs(x, q, y, w);
    Bits.ModIs(partial + x, q, partial + y, w);
    Bits.ModIs(partial, 0, partial, w);
  }

  /** The loop body's or, taken modulo the word size, adds the group to the number so far. */
  lemma OrAdds(partial: nat, g: nat, k: nat, p: nat, t: nat)
    requires p == Bits.Pow2(k) && 0 < t && partial < p
    ensures Bits.Or(partial, (g * p) % (p * t)) == (partial + g * p) % (p * t)
    ensures partial % (p * t) == partial
  {
    var q, r := DivMod(g, t);
    Multiples(g, p, t, q, r);
    SumInWord(partial, g * p, q, r * p, p, p * t);
    Bits.OrOfDisjointBits(partial, r, k);
  }

  /** b << i in a word of w values. */
  function Shl(b: nat, i: nat, w: nat): nat
    requires w > 0
  {
    (b * Bits.Pow2(i)) % w
  }

  lemma SevenSteps(j: nat)
    ensures Bits.Pow2(7 * j) == Varint.Pow128(j)
  {
    if j > 0 {
      SevenSteps(j - 1);
      assert Bits.Pow2(7 * j) == 8 * Bits.Pow2(7 * j - 3) && Bits.Pow2(7 * j - 3) == 16 * Bits.Pow2(7 * (j - 1)) by {
        assert Bits.Pow2(7 * j) == 2 * Bits.Pow2(7 * j - 1) == 4 * Bits.Pow2(7 * j - 2);
        assert Bits.Pow2(7 * j - 3) == 2 * Bits.Pow2(7 * j - 4) == 4 * Bits.Pow2(7 * j - 5);
        assert Bits.Pow2(7 * j - 5) == 2 * Bits.Pow2(7 * j - 6) == 4 * Bits.Pow2(7 * j - 7);
      }
    }
  }

  /** Every shift the reader makes is by a divisor of the word. */
  lemma UnitDivides(wide: bool, j: nat) returns (t: nat)
    requires j < Varint.MaxBytes(wide)
    ensures t > 0 && Varint.Modulus(wide) == Varint.Pow128(j) * t
    decreases Varint.MaxBytes(wide) - j
  {
    if j == Varint.MaxBytes(wide) - 1 {
      t := if wide then 2 else 16;
      assert Varint.Pow128(4) == 0x1000_0000;
      assert Varint.Pow128(8) == 0x100_0000_0000_0000 by { assert Varint.Pow128(6) == 0x400_0000_0000; }
      assert Varint.Pow128(9) == 128 * Varint.Pow128(8);
    } else {
      var u := UnitDivides(wide, j + 1);
      t := 128 * u;
      assert Varint.Pow128(j + 1) * u == Varint.Pow128(j) * (128 * u);
    }
  }

  /** total is what the j bytes read so far, spelling partial, and the bytes ahead spell together. */
  ghost predicate Leads(total: Varint.Parsed, partial: nat, j: nat, ahead: Varint.Parsed) {
    match ahead
    case Short => total == Varint.Short
    case Parsed(v, k) => total == Varint.Parsed(partial + Varint.Pow128(j) * v, j + k)
  }

  lemma LeadsOn(total: Varint.Parsed, partial: nat, j: nat, s: seq<Byte>, n: nat)
    requires n > 0 && s != [] && Leads(total, partial, j, Varint.Spelled(s, n)) && partial < Varint.Pow128(j)
    ensures var g := s[0] % 128; var more := partial + g * Varint.Pow128(j);
      && more < Varint.Pow128(j + 1)
      && (s[0] < 128 ==> total == Varint.Parsed(more, j + 1))
      && (s[0] >= 128 ==> Leads(total, more, j + 1, Varint.Spelled(s[1..], n - 1)))
  {
    var p, g := Varint.Pow128(j), s[0] % 128;
    GroupFits(partial, g, p);
    if s[0] >= 128 && Varint.Spelled(s[1..], n - 1).Parsed? {
      Distribute(p, g, Varint.Spelled(s[1..], n - 1).value);
    } else if s[0] < 128 {
      Distribute(p, g, 0);
    }
  }

  lemma GroupFits(partial: nat, g: nat, p: nat)
    requires partial < p && g < 128
    ensures 0 <= partial + g * p < 128 * p
  {
    assert (g + 1) * p <= 128 * p;
  }

  lemma Distribute(p: nat, g: nat, v: nat)
    ensures p * (g + 128 * v) == g * p + (128 * p) * v && p * g == g * p
  {
  }

  /** One byte into the result: the masked or-ing of both branches of the loop. */
  lemma OrInto(partial: nat, b: Byte, j: nat, wide: bool)
    requires j < Varint.MaxBytes(wide) && partial < Varint.Pow128(j)
    ensures var w, x := Varint.Modulus(wide), Shl(b % 128, 7 * j, Varint.Modulus(wide));
      && partial % w == partial
      && Bits.Or(partial, x) == (partial + (b % 128) * Varint.Pow128(j)) % w
  {
    var t := UnitDivides(wide, j);
    SevenSteps(j);
    OrAdds(partial, b % 128, 7 * j, Varint.Pow128(j), t);
  }

  /** The reader after j bytes of s that all ask for more: partial is what they spell. */
  ghost predicate Underway(s: seq<Byte>, wide: bool, j: nat, partial: nat, result: nat) {
    && j <= |s| && j <= Varint.MaxBytes(wide)
    && partial < Varint.Pow128(j) && result == partial % Varint.Modulus(wide)
    && Leads(Varint.Spelled(s, Varint.MaxBytes(wide)), partial, j,
             Varint.Spelled(s[j..], Varint.MaxBytes(wide) - j))
  }

  lemma OneByte(s: seq<Byte>, wide: bool, j: nat, partial: nat, result: nat) returns (more: nat)
    requires Underway(s, wide, j, partial, result) && j < Varint.MaxBytes(wide) && j < |s|
    ensures var x := Shl(s[j] % 128, 7 * j, Varint.Modulus(wide));
      && (s[j] < 128 ==> Varint.Decode(s, wide) == Varint.Parsed(Bits.Or(result, x), j + 1))
      && (s[j] >= 128 ==> Underway(s, wide, j + 1, more, Bits.Or(result, x)))
  {
    more := partial + (s[j] % 128) * Varint.Pow128(j);
    LeadsOn(Varint.Spelled(s, Varint.MaxBytes(wide)), partial, j, s[j..], Varint.MaxBytes(wide) - j);
    OrInto(partial, s[j], j, wide);
    assert s[j..][1..] == s[j + 1..];
  }

  /** readFuint8 after j bytes of f have been read. */
  method NextByte(ba: ByteArray, ghost f: FlatBuffer.Flat, ghost j: nat) returns (out: Outcome<Byte>)
    requires ba.Valid() && FlatBuffer.Ok(f) && j <= |Rest(f)| && ba.View() == Moved(f, j)
    modifies ba`position, ba`cur, ba`at
    ensures ba.Valid()
    ensures if j < |Rest(f)| then out == Ok(Rest(f)[j]) && ba.View() == Moved(f, j + 1)
            else out == OutOfRange && ba.View() == Moved(f, j)
  {
    var x := Take(ba, 1);
    if x.OutOfRange? { return OutOfRange; }
    return Ok(x.value[0]);
  }

  /** The bits a byte brings: the branch of the loop body that takes the last byte needs no mask. */
  function Group(b: Byte): (g: nat)
    ensures g == b % 128
  {
    Bits.SevenBits(b);
    if b < 0x80 then b else Bits.And(b, 0x7F)
  }

  /** The loop body: one more byte, or-ed in at bit i = 7 j; last says whether the loop breaks. */
  method ReadGroup(ba: ByteArray, wide: bool, i: nat, result: nat, ghost f: FlatBuffer.Flat, ghost j: nat,
                   ghost partial: nat)
    returns (out: Outcome<nat>, last: bool, ghost more: nat)
    requires ba.Valid() && FlatBuffer.Ok(f) && j <= |Rest(f)| && ba.View() == Moved(f, j)
    requires i == 7 * j && j < Varint.MaxBytes(wide) && Underway(Rest(f), wide, j, partial, result)
    modifies ba`position, ba`cur, ba`at
    ensures ba.Valid()
    ensures match out
      case NullCursor => false
      case OutOfRange => ba.View() == Moved(f, |Rest(f)|) && Varint.Decode(Rest(f), wide).Short?
      case Ok(v) =>
        && j < |Rest(f)| && ba.View() == Moved(f, j + 1)
        && (last ==> Varint.Decode(Rest(f), wide) == Varint.Parsed(v, j + 1))
        && (!last ==> Underway(Rest(f), wide, j + 1, more, v))
  {
    more := partial;
    var x := NextByte(ba, f, j);
    if x.OutOfRange? { return OutOfRange, true, more; }
    var b := x.value;
    more := OneByte(Rest(f), wide, j, partial, result);
    var r := Bits.Or(result, Shl(Group(b), i, Varint.Modulus(wide)));
    return Ok(r), b < 0x80, more;
  }

  /** readUint32 and readUint64: running out of bytes leaves the cursor behind the last one. */
  method ReadVarint(ba: ByteArray, wide: bool) returns (out: Outcome<nat>)
    requires ba.Valid()
    modifies ba`position, ba`cur, ba`at
    ensures ba.Valid()
    ensures var f := old(ba.View());
      match Varint.Decode(Rest(f), wide)
      case Parsed(v, used) => out == Ok(v) && ba.View() == Moved(f, used)
      case Short => out == OutOfRange && ba.View() == Moved(f, |Rest(f)|)
  {
    ghost var f := ba.View();
    var bits := if wide then 64 else 32;
    var i: nat, last := 0, false;
    ghost var j: nat, partial: nat := 0, 0;
    out := Ok(0);
    while i < bits
      invariant i == 7 * j && j <= |Rest(f)| && ba.Valid() && ba.View() == Moved(f, j)
      invariant out.Ok? && Underway(Rest(f), wide, j, partial, out.value)
    {
      out, last, partial := ReadGroup(ba, wide, i, out.value, f, j, partial);
      if out.OutOfRange? || last { return; }
      i, j := i + 7, j + 1;
    }
  }

  /** Whether two views differ at most in the cursor, which has not gone back. */
  ghost predicate OnlyMoved(f: FlatBuffer.Flat, g: FlatBuffer.Flat) {
    g.bytes == f.bytes && g.size == f.size && f.position <= g.position <= g.size
  }

  /** Any of the number reads. */
  method ReadNum(ba: ByteArray, k: NumKind, hostBig: bool) returns (out: Outcome<int>)
    requires ba.Valid()
    modifies ba`position, ba`cur, ba`at
    ensures ba.Valid()
    ensures match DecodeNum(k, Rest(old(ba.View())), ba.bigEndian)
      case GotNum(n, used) => out == Ok(n) && ba.View() == Moved(old(ba.View()), used)
      case ShortNum => out == OutOfRange && OnlyMoved(old(ba.View()), ba.View())
  {
    match k {
      case Fixed(_, _) => out := ReadFixed(ba, k, hostBig);
      case Zigzag(wide) =>
        var u := ReadVarint(ba, wide);
        if u.OutOfRange? { return OutOfRange; }
        return Ok(Varint.ZigzagDecode(u.value, Varint.Modulus(wide)));
      case Plain(wide) =>
        var u := ReadVarint(ba, wide);
        if u.OutOfRange? { return OutOfRange; }
        return Ok(u.value);
    }
  }

  /** An empty string whose bytes would start right at the capacity. */
  ghost predicate EmptyAtCapacity(f: FlatBuffer.Flat, got: Got) {
    got.Got? && got.value == Str([]) && f.position + got.used == |f.bytes|
  }

  lemma RestAfter(f: FlatBuffer.Flat, n: nat)
    requires FlatBuffer.Ok(f) && n <= |Rest(f)|
    ensures FlatBuffer.Ok(Moved(f, n)) && Rest(Moved(f, n)) == Rest(f)[n..]
  {
  }

  lemma SliceAfter(s: seq<Byte>, i: nat, n: nat)
    requires i + n <= |s|
    ensures s[i..][..n] == s[i..i + n]
  {
  }

  /** Any of the string reads: the length, then that many bytes. */
  method ReadText(ba: ByteArray, p: Prefix, hostBig: bool) returns (out: Outcome<Value>)
    requires ba.Valid()
    modifies ba`position, ba`cur, ba`at
    ensures ba.Valid()
    ensures ReadAs(Decode(Text(p), Rest(old(ba.View())), ba.bigEndian), old(ba.View()), out, ba.View())
  {
    ghost var f := ba.View();
    var len := ReadNum(ba, LengthKind(p), hostBig);
    if len.OutOfRange? { return OutOfRange; }
    LengthDecodes(p, Rest(f), ba.bigEndian);
    ghost var used := DecodeNum(LengthKind(p), Rest(f), ba.bigEndian).used;
    var s := Take(ba, len.value);
    TextReads(p, f, len.value, used, ba.bigEndian, s, ba.View());
    return AsText(s);
  }

  function AsText(s: Outcome<seq<Byte>>): Outcome<Value> {
    match s
    case Ok(x) => Ok(Str(x))
    case OutOfRange => OutOfRange
    case NullCursor => NullCursor
  }

  lemma TextReads(p: Prefix, f: FlatBuffer.Flat, n: nat, used: nat, big: bool, s: Outcome<seq<Byte>>,
                  g: FlatBuffer.Flat)
    requires FlatBuffer.Ok(f) && used <= |Rest(f)| && DecodeNum(LengthKind(p), Rest(f), big) == GotNum(n, used)
    requires if n > |Rest(Moved(f, used))| then s == OutOfRange && g == Moved(f, used)
      else if n == 0 && f.position + used == |f.bytes| then s == NullCursor && g == Moved(f, used)
      else s == Ok(Rest(Moved(f, used))[..n]) && g == Moved(Moved(f, used), n)
    ensures ReadAs(Decode(Text(p), Rest(f), big), f, AsText(s), g)
  {
    RestAfter(f, used);
    if used + n <= |Rest(f)| { SliceAfter(Rest(f), used, n); }
  }

  /** A decoded length is a natural number and leaves no more than was there. */
  lemma LengthDecodes(p: Prefix, s: seq<Byte>, big: bool)
    ensures match DecodeNum(LengthKind(p), s, big)
      case GotNum(n, used) => 0 <= n && 0 < used <= |s|
      case ShortNum => true
  {
    Varint.SpelledBound(s, Varint.MaxBytes(true));
    if Varint.Spelled(s, Varint.MaxBytes(true)).Parsed? { Varint.SpelledUses(s, Varint.MaxBytes(true)); }
  }

  /** What a field read must do, given what the bytes decode to. */
  ghost predicate ReadAs(got: Got, f: FlatBuffer.Flat, out: Outcome<Value>, g: FlatBuffer.Flat) {
    match got
    case Short => out == OutOfRange && OnlyMoved(f, g)
    case Got(v, used) =>
      if EmptyAtCapacity(f, got) then out == NullCursor && OnlyMoved(f, g)
      else out == Ok(v) && g == Moved(f, used)
  }

  /** Any of the field reads. */
  method ReadField(ba: ByteArray, k: Kind, hostBig: bool) returns (out: Outcome<Value>)
    requires ba.Valid()
    modifies ba`position, ba`cur, ba`at
    ensures ba.Valid()
    ensures ReadAs(Decode(k, Rest(old(ba.View())), ba.bigEndian), old(ba.View()), out, ba.View())
  {
    match k {
      case Number(num) =>
        var n := ReadNum(ba, num, hostBig);
        if n.OutOfRange? { return OutOfRange; }
        return Ok(Num(n.value));
      case Text(p) => out := ReadText(ba, p, hostBig);
    }
  }

  /** Writing a list of fields one after the other. */
  method WriteAll(ba: ByteArray, fs: seq<Field>, hostBig: bool)
    requires ba.Valid() && AllFit(fs)
    modifies ba.Repr
    ensures ba.Valid() && fresh(ba.Repr - old(ba.Repr)) && ba.bigEndian == old(ba.bigEndian)
    ensures FlatBuffer.Wrote(old(ba.View()), EncodeAll(fs, ba.bigEndian), ba.View(), ba.baseSize)
    decreases |fs|
  {
    if fs == [] {
      FlatBuffer.WroteNothing(ba.View(), ba.baseSize);
    } else {
      WriteField(ba, fs[0], hostBig);
      ghost var middle := ba.View();
      WriteAll(ba, fs[1..], hostBig);
      FlatBuffer.WroteMore(old(ba.View()), Encode(fs[0], ba.bigEndian), middle,
                           EncodeAll(fs[1..], ba.bigEndian), ba.View(), ba.baseSize);
    }
  }

  /** A read takes at least one byte and no more than there are. */
  lemma DecodeUses(k: Kind, s: seq<Byte>, big: bool)
    ensures Decode(k, s, big).Got? ==> 0 < Decode(k, s, big).used <= |s|
  {
    match k {
      case Number(num) =>
        if !num.Fixed? {
          Varint.SpelledBound(s, Varint.MaxBytes(num.wide));
          if Varint.Spelled(s, Varint.MaxBytes(num.wide)).Parsed? {
            Varint.SpelledUses(s, Varint.MaxBytes(num.wide));
          }
        }
      case Text(p) => LengthDecodes(p, s, big);
    }
  }

  /** The list of values ends with an empty string, and the bytes they took end at the capacity. */
  ghost predicate EmptyLast(f: FlatBuffer.Flat, vs: seq<Value>, used: nat) {
    vs != [] && vs[|vs| - 1] == Str([]) && f.position + used == |f.bytes|
  }

  /** What a list read must do. */
  ghost predicate AllAs(ks: seq<Kind>, f: FlatBuffer.Flat, big: bool, out: Outcome<seq<Value>>, g: FlatBuffer.Flat)
    requires FlatBuffer.Ok(f)
  {
    match DecodeAll(ks, Rest(f), big)
    case ShortAll => !out.Ok?
    case GotAll(vs, used) =>
      if EmptyLast(f, vs, used) then out == NullCursor
      else out == Ok(vs) && g == Moved(f, used)
  }

  /** Nothing but the empty list decodes from no bytes. */
  lemma NothingLeft(ks: seq<Kind>, big: bool)
    ensures ks != [] ==> DecodeAll(ks, [], big) == ShortAll
  {
    if ks != [] { DecodeUses(ks[0], [], big); }
  }

  /** The first field's value in front of the others. */
  function Cons(v: Value, out: Outcome<seq<Value>>): Outcome<seq<Value>> {
    if out.Ok? then Ok([v] + out.value) else out
  }

  /** A first field read and the rest read as they must be make the list read as it must be. */
  lemma OneField(ks: seq<Kind>, f: FlatBuffer.Flat, big: bool, v: Value, used: nat,
                 out: Outcome<seq<Value>>, h: FlatBuffer.Flat)
    requires FlatBuffer.Ok(f) && ks != [] && Decode(ks[0], Rest(f), big) == Got(v, used)
    requires used <= |Rest(f)| && !EmptyAtCapacity(f, Got(v, used))
    requires FlatBuffer.Ok(Moved(f, used)) && AllAs(ks[1..], Moved(f, used), big, out, h)
    ensures AllAs(ks, f, big, Cons(v, out), h)
  {
    RestAfter(f, used);
    match DecodeAll(ks[1..], Rest(f)[used..], big) {
      case ShortAll =>
      case GotAll(vs, more) =>
        if vs != [] { assert ([v] + vs)[|vs|] == vs[|vs| - 1]; }
    }
  }

  /** An empty string at the capacity either ends the list or leaves nothing for the rest of it. */
  lemma CutShort(ks: seq<Kind>, f: FlatBuffer.Flat, big: bool, used: nat, h: FlatBuffer.Flat)
    requires FlatBuffer.Ok(f) && ks != [] && Decode(ks[0], Rest(f), big) == Got(Str([]), used)
    requires used <= |Rest(f)| && EmptyAtCapacity(f, Got(Str([]), used))
    ensures AllAs(ks, f, big, NullCursor, h)
  {
    assert Rest(f)[used..] == [];
    NothingLeft(ks[1..], big);
  }

  /** Reading fields of the given kinds one after the other. */
  method ReadAll(ba: ByteArray, ks: seq<Kind>, hostBig: bool) returns (out: Outcome<seq<Value>>)
    requires ba.Valid()
    modifies ba`position, ba`cur, ba`at
    ensures ba.Valid() && AllAs(ks, old(ba.View()), ba.bigEndian, out, ba.View())
    decreases |ks|
  {
    if ks == [] { return Ok([]); }
    ghost var f, got := ba.View(), Decode(ks[0], Rest(ba.View()), ba.bigEndian);
    DecodeUses(ks[0], Rest(f), ba.bigEndian);
    var v := ReadField(ba, ks[0], hostBig);
    match v {
      case OutOfRange => return OutOfRange;
      case NullCursor =>
        CutShort(ks, f, ba.bigEndian, got.used, ba.View());
        return NullCursor;
      case Ok(x) =>
        out := ReadAll(ba, ks[1..], hostBig);
        OneField(ks, f, ba.bigEndian, x, got.used, out, ba.View());
        out := Cons(x, out);
    }
  }

  predicate EndsEmpty(fs: seq<Field>) {
    fs != [] && fs[|fs| - 1].value == Str([])
  }

  lemma MultipleBetween(x: nat, y: nat, b: nat)
    requires b > 0 && x % b == 0 && y % b == 0 && x <= y < x + b
    ensures x == y
  {
    Bits.ModIs(y - x, y / b - x / b, 0, b) by {
      assert (y / b - x / b) * b == (y / b) * b - (x / b) * b;
    }
    Varint.WrapOnce(y - x, b);
  }

  /** The writes end at the capacity just when they end at a block's end at or past the old capacity. */
  lemma EndAtCapacity(f: FlatBuffer.Flat, x: seq<Byte>, g: FlatBuffer.Flat, b: nat)
    requires b > 0 && FlatBuffer.Wrote(f, x, g, b) && |g.bytes| % b == 0
    ensures g.position == |g.bytes| <==> g.position >= |f.bytes| && g.position % b == 0
  {
    if g.position >= |f.bytes| && g.position % b == 0 { MultipleBetween(g.position, |g.bytes|, b); }
  }

  /** What was written is the first thing to be read from where it starts. */
  lemma RestAtStart(f: FlatBuffer.Flat, x: seq<Byte>, g: FlatBuffer.Flat, b: nat)
    requires FlatBuffer.Wrote(f, x, g, b)
    ensures g.position == f.position + |x| <= g.size
    ensures Rest(FlatBuffer.Seek(g, f.position)) == x + g.bytes[g.position..g.size]
  {
    FlatBuffer.WroteReadable(f, x, g, b);
  }

  /** The writes ended at the capacity exactly when this holds of the array they started in. */
  predicate FillsUp(capacity: nat, end: nat, b: nat)
    requires b > 0
  {
    end >= capacity && end % b == 0
  }

  /** The outcome of writing fs at start and reading them back. */
  predicate CameBack(fs: seq<Field>, big: bool, start: nat, capacity: nat, b: nat, out: Outcome<seq<Value>>,
                     position: nat)
    requires AllFit(fs) && b > 0
  {
    var end := start + |EncodeAll(fs, big)|;
    if EndsEmpty(fs) && FillsUp(capacity, end, b) then out == NullCursor
    else out == Ok(Values(fs)) && position == end
  }

  /** So what the reading does is settled by what was written and where it ended. */
  lemma Conclude(fs: seq<Field>, f: FlatBuffer.Flat, g: FlatBuffer.Flat, big: bool, b: nat,
                 out: Outcome<seq<Value>>, h: FlatBuffer.Flat)
    requires AllFit(fs) && FlatBuffer.Wrote(f, EncodeAll(fs, big), g, b)
    requires AllAs(Kinds(fs), FlatBuffer.Seek(g, f.position), big, out, h)
    ensures if EndsEmpty(fs) && g.position == |g.bytes| then out == NullCursor
            else out == Ok(Values(fs)) && h.position == g.position
    ensures g.position == f.position + |EncodeAll(fs, big)|
  {
    RestAtStart(f, EncodeAll(fs, big), g, b);
    RoundTripAll(fs, big, g.bytes[g.position..g.size]);
  }

  lemma Judge(fs: seq<Field>, big: bool, start: nat, capacity: nat, b: nat, end: nat, after: nat,
              out: Outcome<seq<Value>>, position: nat)
    requires AllFit(fs) && b > 0 && end == start + |EncodeAll(fs, big)|
    requires FillsUp(capacity, end, b) <==> end == after
    requires if EndsEmpty(fs) && end == after then out == NullCursor
             else out == Ok(Values(fs)) && position == end
    ensures CameBack(fs, big, start, capacity, b, out, position)
  {
  }

  lemma FillsUpIs(ba: ByteArray, f: FlatBuffer.Flat, x: seq<Byte>, g: FlatBuffer.Flat)
    requires ba.Valid() && FlatBuffer.Wrote(f, x, g, ba.baseSize) && |g.bytes| == ba.capacity
    ensures FillsUp(|f.bytes|, g.position, ba.baseSize) <==> g.position == ba.capacity
  {
    ba.CursorIs();
    Bits.ModIs(ba.capacity, |ba.nodes|, 0, ba.baseSize);
    EndAtCapacity(f, x, g, ba.baseSize);
  }

  /** Writes a list of fields, moves back to where it starts, and reads it. */
  method WriteThenRead(ba: ByteArray, fs: seq<Field>, hostBig: bool)
    returns (out: Outcome<seq<Value>>, ghost g: FlatBuffer.Flat)
    requires ba.Valid() && AllFit(fs)
    modifies ba.Repr
    ensures ba.Valid() && ba.bigEndian == old(ba.bigEndian)
    ensures FillsUp(old(ba.capacity), g.position, ba.baseSize) <==> g.position == |g.bytes|
    ensures FlatBuffer.Wrote(old(ba.View()), EncodeAll(fs, ba.bigEndian), g, ba.baseSize)
    ensures AllAs(Kinds(fs), FlatBuffer.Seek(g, old(ba.position)), ba.bigEndian, out, ba.View())
  {
    var start := ba.position;
    WriteAll(ba, fs, hostBig);
    g := ba.View();
    FillsUpIs(ba, old(ba.View()), EncodeAll(fs, ba.bigEndian), g);
    var _ := ba.SetPosition(start);
    out := ReadAll(ba, Kinds(fs), hostBig);
  }

  /**
   Writing a list of fields and reading them back from where they start gives the same values and ends
   where the writing ended, whatever the block size, the byte orders and the bytes that were there
   before; except that an empty string at the very end of the last block is read through a null cursor.
   */
  method RoundTripFields(ba: ByteArray, fs: seq<Field>, hostBig: bool) returns (out: Outcome<seq<Value>>)
    requires ba.Valid() && AllFit(fs)
    modifies ba.Repr
    ensures ba.Valid() && ba.bigEndian == old(ba.bigEndian)
    ensures CameBack(fs, ba.bigEndian, old(ba.position), old(ba.capacity), ba.baseSize, out, ba.position)
  {
    ghost var f, g := ba.View(), ba.View();
    out, g := WriteThenRead(ba, fs, hostBig);
    Conclude(fs, f, g, ba.bigEndian, ba.baseSize, out, ba.View());
    Judge(fs, ba.bigEndian, old(ba.position), old(ba.capacity), ba.baseSize, g.position, |g.bytes|, out, ba.position);
  }

  /** The empty string as one field with a variable-length prefix is one byte. */
  lemma EmptyTextLength(big: bool)
    ensures var fs := [Field(Text(PVint), Str([]))]; AllFit(fs) && |EncodeAll(fs, big)| == 1
  {
    var fs := [Field(Text(PVint), Str([]))];
    assert fs[1..] == [] && EncodeAll(fs, big) == Encode(fs[0], big) + EncodeAll(fs[1..], big);
  }

  /** In an array of one-byte blocks, an empty string cannot be read back. */
  method EmptyStringLost(hostBig: bool) returns (out: Outcome<seq<Value>>)
    ensures out == NullCursor
  {
    var ba := new ByteArray(1);
    var fs := [Field(Text(PVint), Str([]))];
    EmptyTextLength(ba.bigEndian);
    out := RoundTripFields(ba, fs, hostBig);
  }

}
