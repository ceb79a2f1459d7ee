/** base64encode and base64decode: the base 64 of section 4 of RFC 4648. */
module Base64 {
  import opened Options
  import opened Blocks

  const PAD: Byte := 61

  /** The alphabet: A to Z, a to z, 0 to 9, + and /. */
  function Letter(v: nat): Byte
    requires v < 64
  {
    if v < 26 then 65 + v else if v < 52 then 97 + (v - 26) else if v < 62 then 48 + (v - 52)
    else if v == 62 then 43 else 47
  }

  /** The value of a letter, or None. */
  function Sextet(c: Byte): (v: Option<nat>)
    ensures v.Some? ==> v.value < 64
  {
    if 65 <= c <= 90 then Some(c - 65) else if 97 <= c <= 122 then Some(c - 97 + 26)
    else if 48 <= c <= 57 then Some(c - 48 + 52) else if c == 43 then Some(62) else if c == 47 then Some(63)
    else None
  }

  /** The letters are in bijection with their values. */
  lemma Alphabet(v: nat, c: Byte)
    requires v < 64
    ensures Letter(v) != PAD && Sextet(Letter(v)) == Some(v) && Sextet(PAD) == None
    ensures Sextet(c).Some? ==> Letter(Sextet(c).value) == c
  {
  }

  // What encoding and decoding mean, one group after the other.

  /** Four values as characters, the last `padding` of them as padding. */
  function Letters(p: nat, q: nat, r: nat, t: nat, padding: nat): (s: seq<Byte>)
    requires p < 64 && q < 64 && r < 64 && t < 64
    ensures |s| == 4
  {
    [Letter(p), Letter(q), if padding >= 2 then PAD else Letter(r), if padding >= 1 then PAD else Letter(t)]
  }

  /** Three bytes, of which the last `padding` are not there, as four characters. */
  function Quad(a: Byte, b: Byte, c: Byte, padding: nat): (s: seq<Byte>)
    ensures |s| == 4
  {
    var w := (a * 256 + b) * 256 + c;
    Letters(w / 0x40000, (w / 0x1000) % 64, (w / 64) % 64, w % 64, padding)
  }

  function Encoding(x: seq<Byte>): seq<Byte> {
    if x == [] then []
    else if |x| == 1 then Quad(x[0], 0, 0, 2)
    else if |x| == 2 then Quad(x[0], x[1], 0, 1)
    else Quad(x[0], x[1], x[2], 0) + Encoding(x[3..])
  }

  /** Four characters as bytes: letters, of which in the last group the final one or two may be padding. */
  function Unquad(s: seq<Byte>, last: bool): (x: Option<seq<Byte>>)
    requires |s| == 4
    ensures x.Some? ==> 1 <= |x.value| <= 3
  {
    var p, q, r, t := Sextet(s[0]), Sextet(s[1]), Sextet(s[2]), Sextet(s[3]);
    if p.None? || q.None? then None
    else if r.Some? && t.Some? then Some(Unpack(p.value, q.value, r.value, t.value))
    else if last && r.Some? && s[3] == PAD then Some(Unpack(p.value, q.value, r.value, 0)[..2])
    else if last && s[2] == PAD && s[3] == PAD then Some(Unpack(p.value, q.value, 0, 0)[..1])
    else None
  }

  function Unpack(p: nat, q: nat, r: nat, t: nat): (x: seq<Byte>)
    requires p < 64 && q < 64 && r < 64 && t < 64
    ensures |x| == 3
  {
    var packed := ((p * 64 + q) * 64 + r) * 64 + t;
    [packed / 0x10000, (packed / 0x100) % 256, packed % 256]
  }

  function Decoding(s: seq<Byte>): Option<seq<Byte>> {
    if s == [] then Some([])
    else if |s| < 4 then None
    else
      var head, tail := Unquad(s[..4], |s| == 4), Decoding(s[4..]);
      if head.Some? && tail.Some? then Some(head.value + tail.value) else None
  }

  /** A word of 24 bits from its bytes ... */
  lemma Octets(a: Byte, b: Byte, c: Byte)
    ensures var w := (a * 256 + b) * 256 + c;
      w < 0x100_0000 && w / 0x10000 == a && (w / 0x100) % 256 == b && w % 256 == c
  {
    var w := (a * 256 + b) * 256 + c;
    assert w / 0x100 == a * 256 + b;
  }

  /** ... and from its groups of six bits. */
  lemma Sextets(w: nat)
    requires w < 0x100_0000
    ensures w / 0x40000 < 64
    ensures ((w / 0x40000 * 64 + (w / 0x1000) % 64) * 64 + (w / 64) % 64) * 64 + w % 64 == w
  {
    var u := w / 64;
    var v := u / 64;
    assert w == 64 * u + w % 64 && u == 64 * v + u % 64 && v == 64 * (v / 64) + v % 64;
    assert w / 0x1000 == v && w / 0x40000 == v / 64;
  }

  /** The letters, as text. */
  lemma AlphabetText(v: nat)
    requires v < 64
    ensures v < 26 ==> Letter(v) == 'A' as int + v
    ensures 26 <= v < 52 ==> Letter(v) == 'a' as int + (v - 26)
    ensures 52 <= v < 62 ==> Letter(v) == '0' as int + (v - 52)
    ensures v == 62 ==> Letter(v) == '+' as int
    ensures v == 63 ==> Letter(v) == '/' as int
    ensures PAD == '=' as int
  {
  }

  /** The texts of "foo", "fo" and "f" in section 10 of RFC 4648: Zm9v, Zm8= and Zg==. */
  lemma FooRead()
    ensures Encoding([102, 111, 111]) == [90, 109, 57, 118] && Encoding([102, 111]) == [90, 109, 56, 61]
    ensures Encoding([102]) == [90, 103, 61, 61]
  {
    SextetsOf(102, 111, 111);
    SextetsOf(102, 111, 0);
    SextetsOf(102, 0, 0);
    EncodingThree([102, 111, 111]);
  }

  lemma LettersBack(p: nat, q: nat, r: nat, t: nat, padding: nat, last: bool)
    requires p < 64 && q < 64 && r < 64 && t < 64 && padding <= 2 && (padding > 0 ==> last)
    requires (padding >= 1 ==> t == 0) && (padding == 2 ==> r == 0)
    ensures Unquad(Letters(p, q, r, t, padding), last) == Some(Unpack(p, q, r, t)[..3 - padding])
  {
    Alphabet(p, PAD);
    Alphabet(q, PAD);
    Alphabet(r, PAD);
    Alphabet(t, PAD);
    assert Unpack(p, q, r, t)[..3] == Unpack(p, q, r, t);
  }

  lemma Repacked(a: Byte, b: Byte, c: Byte)
    ensures var w := (a * 256 + b) * 256 + c;
      w / 0x40000 < 64 && Unpack(w / 0x40000, (w / 0x1000) % 64, (w / 64) % 64, w % 64) == [a, b, c]
  {
    Octets(a, b, c);
    Sextets((a * 256 + b) * 256 + c);
  }

  lemma QuadRoundTrip(a: Byte, b: Byte, c: Byte, padding: nat, last: bool)
    requires padding <= 2 && (padding > 0 ==> last) && (padding >= 1 ==> c == 0) && (padding == 2 ==> b == 0)
    ensures Unquad(Quad(a, b, c, padding), last) == Some([a, b, c][..3 - padding])
  {
    var p, q, r, t := QuadIs(a, b, c, padding);
    LettersBack(p, q, r, t, padding, last);
  }

  lemma QuadIs(a: Byte, b: Byte, c: Byte, padding: nat) returns (p: nat, q: nat, r: nat, t: nat)
    requires padding <= 2 && (padding >= 1 ==> c == 0) && (padding == 2 ==> b == 0)
    ensures p < 64 && q < 64 && r < 64 && t < 64 && (padding >= 1 ==> t == 0) && (padding == 2 ==> r == 0)
    ensures Quad(a, b, c, padding) == Letters(p, q, r, t, padding) && Unpack(p, q, r, t) == [a, b, c]
  {
    var w := (a * 256 + b) * 256 + c;
    p, q, r, t := w / 0x40000, (w / 0x1000) % 64, (w / 64) % 64, w % 64;
    assert p < 64 && Unpack(p, q, r, t) == [a, b, c] by { Repacked(a, b, c); }
    assert (padding >= 1 ==> t == 0) && (padding == 2 ==> r == 0) by { ZeroBits(a, b, c, padding); }
  }

  /** The groups of six bits that padding stands for are zero. */
  lemma ZeroBits(a: Byte, b: Byte, c: Byte, padding: nat)
    requires padding <= 2 && (padding >= 1 ==> c == 0) && (padding == 2 ==> b == 0)
    ensures var w := (a * 256 + b) * 256 + c;
      (padding >= 1 ==> w % 64 == 0) && (padding == 2 ==> (w / 64) % 64 == 0)
  {
    var w := (a * 256 + b) * 256 + c;
    if padding == 2 {
      assert w / 64 == 64 * (16 * a);
    } else if padding == 1 {
      assert w == 64 * (4 * (a * 256 + b));
    }
  }

  /** Decoding undoes encoding, for every string of bytes. */
  lemma {:induction false} RoundTrip(x: seq<Byte>)
    ensures Decoding(Encoding(x)) == Some(x)
  {
    if |x| == 1 {
      QuadRoundTrip(x[0], 0, 0, 2, true);
      DecodingOne(Encoding(x));
      assert [x[0], 0, 0][..1] == x;
    } else if |x| == 2 {
      QuadRoundTrip(x[0], x[1], 0, 1, true);
      DecodingOne(Encoding(x));
      assert [x[0], x[1], 0][..2] == x;
    } else if |x| >= 3 {
      var s := Encoding(x);
      QuadRoundTrip(x[0], x[1], x[2], 0, |s| == 4);
      RoundTrip(x[3..]);
      assert s[..4] == Quad(x[0], x[1], x[2], 0) && s[4..] == Encoding(x[3..]);
      assert [x[0], x[1], x[2]][..3] + x[3..] == x;
    }
  }

  lemma DecodingOne(s: seq<Byte>)
    requires |s| == 4
    ensures Decoding(s) == Unquad(s, true)
  {
    assert s[..4] == s && s[4..] == [];
    if Unquad(s, true).Some? { assert Unquad(s, true).value + [] == Unquad(s, true).value; }
  }

  /** Whole groups of four letters, except that one or two final characters may be padding. */
  predicate Accepted(s: seq<Byte>) {
    && |s| % 4 == 0
    && forall i :: 0 <= i < |s| ==>
         Sextet(s[i]).Some? || (s[i] == PAD && i + 2 >= |s| && s[|s| - 1] == PAD)
  }

  lemma AcceptedTail(s: seq<Byte>)
    requires |s| > 4
    ensures Accepted(s) <==> Accepted(s[4..]) && forall i :: 0 <= i < 4 ==> Sextet(s[i]).Some?
  {
    var b := s[4..];
    if Accepted(s) {
      assert |s| >= 8;
      forall i | 0 <= i < |b| ensures Sextet(b[i]).Some? || (b[i] == PAD && i + 2 >= |b| && b[|b| - 1] == PAD) {
        assert b[i] == s[i + 4];
      }
    }
    if Accepted(b) && forall i :: 0 <= i < 4 ==> Sextet(s[i]).Some? {
      forall i | 0 <= i < |s| ensures Sextet(s[i]).Some? || (s[i] == PAD && i + 2 >= |s| && s[|s| - 1] == PAD) {
        if i >= 4 { assert s[i] == b[i - 4]; }
      }
    }
  }

  lemma AcceptedFour(s: seq<Byte>)
    requires |s| == 4
    ensures Accepted(s) <==> Unquad(s, true).Some?
  {
    assert Sextet(PAD) == None;
  }

  /** Decoding accepts exactly the well-formed strings. */
  lemma {:induction false} DecodesIffAccepted(s: seq<Byte>)
    ensures Decoding(s).Some? <==> Accepted(s)
  {
    if |s| == 4 {
      DecodingOne(s);
      AcceptedFour(s);
    } else if |s| > 4 {
      DecodesIffAccepted(s[4..]);
      AcceptedTail(s);
      assert Unquad(s[..4], false).Some? <==> forall i :: 0 <= i < 4 ==> Sextet(s[i]).Some?;
    }
  }

  /** The bits that padding leaves over are zero. */
  predicate SpareBitsZero(s: seq<Byte>)
    requires Accepted(s)
  {
    |s| > 0 ==>
      && (s[|s| - 2] == PAD ==> Sextet(s[|s| - 3]).value % 16 == 0)
      && (s[|s| - 2] != PAD && s[|s| - 1] == PAD ==> Sextet(s[|s| - 2]).value % 4 == 0)
  }

  /** The six-bit groups, byte by byte. */
  lemma SextetsOf(a: Byte, b: Byte, c: Byte)
    ensures var w := (a * 256 + b) * 256 + c;
      && w / 0x40000 == a / 4 && (w / 0x1000) % 64 == (a % 4) * 16 + b / 16
      && (w / 64) % 64 == (b % 16) * 4 + c / 64 && w % 64 == c % 64
  {
    var w := (a * 256 + b) * 256 + c;
    assert w / 64 == (a * 256 + b) * 4 + c / 64;
    assert w / 0x1000 == (w / 64) / 64 == a * 16 + b / 16;
    assert w / 0x40000 == (w / 0x1000) / 64;
    assert (a * 16 + b / 16) == 64 * (a / 4) + ((a % 4) * 16 + b / 16);
    assert (a * 256 + b) * 4 + c / 64 == 64 * (a * 16 + b / 16) + ((b % 16) * 4 + c / 64);
  }

  /** The bytes, group by group. */
  lemma OctetsOf(p: nat, q: nat, r: nat, t: nat)
    requires p < 64 && q < 64 && r < 64 && t < 64
    ensures Unpack(p, q, r, t) == [p * 4 + q / 16, (q % 16) * 16 + r / 4, (r % 4) * 64 + t]
  {
    var w := ((p * 64 + q) * 64 + r) * 64 + t;
    assert w / 0x100 == (p * 64 + q) * 16 + r / 4;
    assert w / 0x10000 == (w / 0x100) / 0x100 == p * 4 + q / 16;
    assert (p * 64 + q) * 16 + r / 4 == 256 * (p * 4 + q / 16) + ((q % 16) * 16 + r / 4);
    assert w == 256 * ((p * 64 + q) * 16 + r / 4) + ((r % 4) * 64 + t);
  }

  lemma QuadByBytes(a: Byte, b: Byte, c: Byte, padding: nat)
    ensures (a % 4) * 16 + b / 16 < 64 && (b % 16) * 4 + c / 64 < 64
    ensures Quad(a, b, c, padding) == Letters(a / 4, (a % 4) * 16 + b / 16, (b % 16) * 4 + c / 64, c % 64, padding)
  {
    SextetsOf(a, b, c);
  }

  lemma Regroup(p: nat, q: nat, r: nat, t: nat) returns (a: Byte, b: Byte, c: Byte)
    requires p < 64 && q < 64 && r < 64 && t < 64
    ensures Unpack(p, q, r, t) == [a, b, c]
    ensures a / 4 == p && a % 4 == q / 16 && b / 16 == q % 16 && b % 16 == r / 4 && c / 64 == r % 4 && c % 64 == t
  {
    OctetsOf(p, q, r, t);
    a, b, c := p * 4 + q / 16, (q % 16) * 16 + r / 4, (r % 4) * 64 + t;
  }

  /** Encoding what four characters decode to drops the bits left over by the padding. */
  lemma QuadOfUnpack(p: nat, q: nat, r: nat, t: nat, padding: nat)
    requires p < 64 && q < 64 && r < 64 && t < 64 && padding <= 2
    requires (padding >= 1 ==> t == 0) && (padding == 2 ==> r == 0)
    ensures var x := Unpack(p, q, r, t);
      Quad(x[0], if padding == 2 then 0 else x[1], if padding >= 1 then 0 else x[2], padding)
      == Letters(p, if padding == 2 then q - q % 16 else q, if padding == 1 then r - r % 4 else r, t, padding)
  {
    var a, b, c := Regroup(p, q, r, t);
    QuadOfParts(a, b, c, p, q, r, t, padding);
  }

  lemma QuadOfParts(a: Byte, b: Byte, c: Byte, p: nat, q: nat, r: nat, t: nat, padding: nat)
    requires p < 64 && q < 64 && r < 64 && t < 64 && padding <= 2
    requires (padding >= 1 ==> t == 0) && (padding == 2 ==> r == 0)
    requires a / 4 == p && a % 4 == q / 16 && b / 16 == q % 16 && b % 16 == r / 4 && c / 64 == r % 4 && c % 64 == t
    ensures Quad(a, if padding == 2 then 0 else b, if padding >= 1 then 0 else c, padding)
      == Letters(p, if padding == 2 then q - q % 16 else q, if padding == 1 then r - r % 4 else r, t, padding)
  {
    if padding == 2 {
      QuadByBytes(a, 0, 0, 2);
      assert q == (q / 16) * 16 + q % 16;
    } else if padding == 1 {
      QuadByBytes(a, b, 0, 1);
      assert r == (r / 4) * 4 + r % 4;
    } else {
      QuadByBytes(a, b, c, 0);
    }
  }

  lemma LettersInjective(c: Byte, v: nat, w: nat)
    requires v < 64 && w < 64
    ensures (Letter(v) == Letter(w) <==> v == w) && Letter(v) != PAD
    ensures Sextet(c) == Some(v) ==> Letter(v) == c
  {
    Alphabet(v, c);
    Alphabet(w, c);
  }

  /** A group that decodes, as the values of its letters. */
  lemma GroupIs(s: seq<Byte>, last: bool) returns (p: nat, q: nat, r: nat, t: nat, padding: nat)
    requires |s| == 4 && Unquad(s, last).Some?
    ensures p < 64 && q < 64 && r < 64 && t < 64 && padding <= 2
    ensures (padding >= 1 ==> t == 0) && (padding == 2 ==> r == 0)
    ensures s == Letters(p, q, r, t, padding) && Unquad(s, last) == Some(Unpack(p, q, r, t)[..3 - padding])
    ensures Sextet(s[1]) == Some(q) && (padding < 2 ==> Sextet(s[2]) == Some(r))
    ensures (padding == 2 <==> s[2] == PAD) && (padding >= 1 <==> s[3] == PAD)
  {
    padding := if s[2] == PAD then 2 else if s[3] == PAD then 1 else 0;
    p, q := Sextet(s[0]).value, Sextet(s[1]).value;
    r := if padding == 2 then 0 else Sextet(s[2]).value;
    t := if padding >= 1 then 0 else Sextet(s[3]).value;
    LettersInjective(s[0], p, p);
    LettersInjective(s[1], q, q);
    LettersInjective(s[2], r, r);
    LettersInjective(s[3], t, t);
    assert Unpack(p, q, r, t)[..3] == Unpack(p, q, r, t);
    assert s == [s[0], s[1], s[2], s[3]];
  }

  lemma EncodingOfUnpack(p: nat, q: nat, r: nat, t: nat, padding: nat)
    requires p < 64 && q < 64 && r < 64 && t < 64 && padding <= 2
    requires (padding >= 1 ==> t == 0) && (padding == 2 ==> r == 0)
    ensures Encoding(Unpack(p, q, r, t)[..3 - padding])
      == Letters(p, if padding == 2 then q - q % 16 else q, if padding == 1 then r - r % 4 else r, t, padding)
  {
    QuadOfUnpack(p, q, r, t, padding);
    var x := Unpack(p, q, r, t);
    if padding == 0 { EncodingThree(x); }
  }

  lemma EncodingThree(x: seq<Byte>)
    requires |x| == 3
    ensures x[..3] == x && Encoding(x) == Quad(x[0], x[1], x[2], 0)
  {
    assert x[3..] == [] && Encoding(x) == Quad(x[0], x[1], x[2], 0) + Encoding(x[3..]);
  }

  lemma LettersSame(p: nat, q: nat, r: nat, t: nat, q1: nat, r1: nat, padding: nat)
    requires p < 64 && q < 64 && r < 64 && t < 64 && q1 < 64 && r1 < 64 && padding <= 2 && (padding == 2 ==> r1 == r)
    ensures Letters(p, q1, r1, t, padding) == Letters(p, q, r, t, padding) <==> q1 == q && r1 == r
  {
    LettersInjective(PAD, q, q1);
    LettersInjective(PAD, r, r1);
    var x, y := Letters(p, q1, r1, t, padding), Letters(p, q, r, t, padding);
    if x == y { assert x[1] == y[1] && x[2] == y[2]; }
  }

  /** One group encodes back to itself exactly when its spare bits are zero. */
  lemma OneGroup(s: seq<Byte>, last: bool)
    requires |s| == 4 && Unquad(s, last).Some?
    ensures Encoding(Unquad(s, last).value) == s <==>
      (s[2] == PAD ==> Sextet(s[1]).value % 16 == 0) && (s[2] != PAD && s[3] == PAD ==> Sextet(s[2]).value % 4 == 0)
    ensures s[3] != PAD ==> |Unquad(s, last).value| == 3
  {
    var p, q, r, t, padding := GroupIs(s, last);
    EncodingOfUnpack(p, q, r, t, padding);
    var q1, r1 := if padding == 2 then q - q % 16 else q, if padding == 1 then r - r % 4 else r;
    LettersSame(p, q, r, t, q1, r1, padding);
  }

  /** Encoding undoes decoding on exactly the accepted strings whose spare bits are zero. */
  lemma {:induction false} EncodesBackIff(s: seq<Byte>)
    requires Accepted(s)
    ensures Decoding(s).Some? && (Encoding(Decoding(s).value) == s <==> SpareBitsZero(s))
  {
    DecodesIffAccepted(s);
    if |s| == 4 {
      DecodingOne(s);
      OneGroup(s, true);
    } else if |s| > 4 {
      var a, b := s[..4], s[4..];
      AcceptedTail(s);
      EncodesBackIff(b);
      OneGroup(a, false);
      assert a[3] != PAD && a[2] != PAD by { assert Sextet(PAD) == None && a[3] == s[3] && a[2] == s[2]; }
      var x, y := Unquad(a, false).value, Decoding(b).value;
      EncodingThree(x);
      assert (x + y)[3..] == y;
      assert s == a + b;
      assert Encoding(x + y) == Encoding(x) + Encoding(y);
    }
  }

  // The loops.

  /** The first n bytes from `from` on as one word, zeros where the string has ended. */
  function PackedBytes(s: seq<Byte>, from: nat, n: nat): nat {
    if n == 0 then 0 else PackedBytes(s, from, n - 1) * 256 + Peek(s, from + n - 1)
  }

  /** The inner loops of base64encode: three bytes from ptr on as one word, and how many there were. */
  method PackBytes(data: seq<Byte>, ptr: nat) returns (packed: nat, n: nat)
    requires ptr < |data|
    ensures n == if |data| - ptr < 3 then |data| - ptr else 3
    ensures packed == PackedBytes(data, ptr, 3)
  {
    packed, n := 0, 0;
    while n < 3 && ptr + n < |data|
      invariant 0 <= n <= 3 && ptr + n <= |data| && packed == PackedBytes(data, ptr, n)
    {
      packed := packed * 256 + data[ptr + n];
      n := n + 1;
    }
    var i := n;
    while i < 3
      invariant n <= i <= 3 && packed == PackedBytes(data, ptr, i)
    {
      packed := packed * 256;
      i := i + 1;
    }
  }

  lemma PackedThree(s: seq<Byte>, from: nat)
    ensures PackedBytes(s, from, 3)
      == ((Peek(s, from) as int) * 256 + Peek(s, from + 1) as int) * 256 + Peek(s, from + 2) as int < 0x100_0000
  {
    assert PackedBytes(s, from, 1) == PackedBytes(s, from, 0) * 256 + Peek(s, from);
    assert PackedBytes(s, from, 2) == PackedBytes(s, from, 1) * 256 + Peek(s, from + 1);
  }

  /** The characters of a word of 24 bits. */
  function Chars(w: nat, padding: nat): (s: seq<Byte>)
    requires w < 0x100_0000
  {
    Letters(w / 0x40000, (w / 0x1000) % 64, (w / 64) % 64, w % 64, padding)
  }

  /** The first group of an encoding, and the rest. */
  lemma EncodingStep(data: seq<Byte>, ptr: nat, n: nat)
    requires ptr < |data| && n == if |data| - ptr < 3 then |data| - ptr else 3
    ensures PackedBytes(data, ptr, 3) < 0x100_0000
    ensures Encoding(data[ptr..]) == Chars(PackedBytes(data, ptr, 3), 3 - n) + Encoding(data[ptr + n..])
  {
    PackedThree(data, ptr);
    if n == 3 {
      assert data[ptr..][3..] == data[ptr + 3..];
    } else {
      assert data[ptr + n..] == [];
    }
  }

  /** The appends of one group. */
  method AppendGroup(ret: seq<Byte>, packed: nat, padding: nat) returns (more: seq<Byte>)
    requires packed < 0x100_0000 && padding <= 2
    ensures more == ret + Chars(packed, padding)
  {
    more := ret + [Letter(packed / 0x40000)];
    more := more + [Letter((packed / 0x1000) % 64)];
    if padding != 2 { more := more + [Letter((packed / 64) % 64)]; }
    if padding == 0 { more := more + [Letter(packed % 64)]; }
    more := more + seq(padding, i => PAD);
  }

  /** The body of base64encode's loop. */
  method EncodeGroup(data: seq<Byte>, ptr: nat, ret: seq<Byte>) returns (more: seq<Byte>, n: nat)
    requires ptr < |data|
    ensures 0 < n && ptr + n <= |data| && more + Encoding(data[ptr + n..]) == ret + Encoding(data[ptr..])
  {
    var packed;
    packed, n := PackBytes(data, ptr);
    EncodingStep(data, ptr, n);
    var padding := if n == 2 then 1 else if n == 1 then 2 else 0;
    more := AppendGroup(ret, packed, padding);
  }

  /** base64encode. */
  method Encode(data: seq<Byte>) returns (ret: seq<Byte>)
    ensures ret == Encoding(data)
  {
    ret := [];
    var ptr := 0;
    while ptr < |data|
      invariant 0 <= ptr <= |data| && ret + Encoding(data[ptr..]) == Encoding(data)
    {
      var n;
      ret, n := EncodeGroup(data, ptr, ret);
      ptr := ptr + n;
    }
  }

  function ValueOf(c: Byte): nat {
    if Sextet(c).Some? then Sextet(c).value else 0
  }

  /** The first n characters from `from` on, six bits each. */
  function Packed(s: seq<Byte>, from: nat, n: nat): nat
    requires from + n <= |s|
  {
    if n == 0 then 0 else Packed(s, from, n - 1) * 64 + ValueOf(s[from + n - 1])
  }

  /** The next n characters are letters and then `padding` padding characters. */
  predicate Shape(s: seq<Byte>, from: nat, n: nat, padding: nat)
    requires from + n <= |s| && padding <= n
  {
    && (forall i :: from <= i < from + n - padding ==> Sextet(s[i]).Some?)
    && (forall i :: from + n - padding <= i < from + n ==> s[i] == PAD)
  }

  /** The inner loop of base64decode; not ok is its return of "". */
  method ReadGroup(src: seq<Byte>, ptr: nat) returns (ok: bool, packed: nat, padding: nat)
    requires ptr < |src|
    ensures ok ==> ptr + 4 <= |src| && padding <= 4 && Shape(src, ptr, 4, padding) && packed == Packed(src, ptr, 4)
    ensures !ok && ptr + 4 <= |src| ==> forall k :: 0 <= k <= 4 ==> !Shape(src, ptr, 4, k)
  {
    var i := 0;
    ok, packed, padding := false, 0, 0;
    while i < 4 && ptr + i < |src|
      invariant 0 <= i <= 4 && ptr + i <= |src| && padding <= i && !ok
      invariant Shape(src, ptr, i, padding) && packed == Packed(src, ptr, i)
    {
      var c := src[ptr + i];
      if c == PAD {
        assert ValueOf(c) == 0;
        padding := padding + 1;
        packed := packed * 64;
      } else {
        if padding > 0 {
          NotPadded(src, ptr, i, padding);
          return;
        }
        if Sextet(c).None? {
          NotLetter(src, ptr, i);
          return;
        }
        packed := packed * 64 + Sextet(c).value;
      }
      i := i + 1;
    }
    ok := i == 4;
  }

  lemma NotPadded(s: seq<Byte>, from: nat, i: nat, padding: nat)
    requires i < 4 && from + i < |s| && 0 < padding <= i && s[from + i - 1] == PAD && s[from + i] != PAD
    ensures from + 4 <= |s| ==> forall k :: 0 <= k <= 4 ==> !Shape(s, from, 4, k)
  {
    assert Sextet(PAD).None?;
  }

  lemma NotLetter(s: seq<Byte>, from: nat, i: nat)
    requires i < 4 && from + i < |s| && s[from + i] != PAD && Sextet(s[from + i]).None?
    ensures from + 4 <= |s| ==> forall k :: 0 <= k <= 4 ==> !Shape(s, from, 4, k)
  {
  }

  lemma ShapeIs(s: seq<Byte>, from: nat, last: bool)
    requires from + 4 <= |s|
    ensures forall k :: 0 <= k <= 4 && Shape(s, from, 4, k) ==>
      (Unquad(s[from..from + 4], last).Some? <==> k <= 2 && (k == 0 || last))
    ensures Unquad(s[from..from + 4], last).Some? ==> exists k :: 0 <= k <= 4 && Shape(s, from, 4, k)
  {
    var g := s[from..from + 4];
    assert g[0] == s[from] && g[1] == s[from + 1] && g[2] == s[from + 2] && g[3] == s[from + 3];
    assert Sextet(PAD).None?;
    if Unquad(g, last).Some? {
      assert Shape(s, from, 4, if g[2] == PAD then 2 else if g[3] == PAD then 1 else 0);
    }
  }

  /** The bytes of a group's word. */
  function Octet(w: nat, k: nat): Byte {
    if k == 0 then (w / 0x10000) % 256 else if k == 1 then (w / 0x100) % 256 else w % 256
  }

  lemma OctetsAre(s: seq<Byte>, from: nat, padding: nat, last: bool)
    requires from + 4 <= |s| && padding <= 2 && (padding == 0 || last) && Shape(s, from, 4, padding)
    ensures var w, x := Packed(s, from, 4), Unquad(s[from..from + 4], last);
      x.Some? && |x.value| == 3 - padding && forall k :: 0 <= k < 3 - padding ==> x.value[k] == Octet(w, k)
  {
    ShapeIs(s, from, last);
    var g := s[from..from + 4];
    var p, q, r, t, pad := GroupIs(g, last);
    assert g[0] == s[from] && g[1] == s[from + 1] && g[2] == s[from + 2] && g[3] == s[from + 3];
    PackedFour(s, from);
    PaddingIs(s, from, padding, g);
    FirstLetter(g, p, q, r, t, pad);
    OctetsSmall(p, q, r, t);
  }

  lemma PaddingIs(s: seq<Byte>, from: nat, padding: nat, g: seq<Byte>)
    requires from + 4 <= |s| && padding <= 2 && Shape(s, from, 4, padding) && g == s[from..from + 4]
    ensures padding == if g[2] == PAD then 2 else if g[3] == PAD then 1 else 0
  {
    assert Sextet(PAD).None?;
    assert g[0] == s[from] && g[1] == s[from + 1] && g[2] == s[from + 2] && g[3] == s[from + 3];
  }

  lemma FirstLetter(g: seq<Byte>, p: nat, q: nat, r: nat, t: nat, padding: nat)
    requires p < 64 && q < 64 && r < 64 && t < 64 && padding <= 2 && g == Letters(p, q, r, t, padding)
    requires (padding >= 1 ==> t == 0) && (padding == 2 ==> r == 0)
    ensures ValueOf(g[0]) == p && ValueOf(g[1]) == q && ValueOf(g[2]) == r && ValueOf(g[3]) == t
  {
    Alphabet(p, PAD);
    Alphabet(q, PAD);
    Alphabet(r, PAD);
    Alphabet(t, PAD);
  }

  lemma PackedFour(s: seq<Byte>, from: nat)
    requires from + 4 <= |s|
    ensures Packed(s, from, 4)
      == ((ValueOf(s[from]) * 64 + ValueOf(s[from + 1])) * 64 + ValueOf(s[from + 2])) * 64 + ValueOf(s[from + 3])
  {
    assert Packed(s, from, 1) == Packed(s, from, 0) * 64 + ValueOf(s[from]);
    assert Packed(s, from, 2) == Packed(s, from, 1) * 64 + ValueOf(s[from + 1]);
    assert Packed(s, from, 3) == Packed(s, from, 2) * 64 + ValueOf(s[from + 2]);
  }

  lemma OctetsSmall(p: nat, q: nat, r: nat, t: nat)
    requires p < 64 && q < 64 && r < 64 && t < 64
    ensures var w := ((p * 64 + q) * 64 + r) * 64 + t;
      Unpack(p, q, r, t) == [Octet(w, 0), Octet(w, 1), Octet(w, 2)]
  {
    var w := ((p * 64 + q) * 64 + r) * 64 + t;
    assert w < 0x100_0000;
    assert (w / 0x10000) % 256 == w / 0x10000;
  }

  /** The first group of a decoding, and the rest. */
  lemma DecodingStep(s: seq<Byte>, ptr: nat)
    requires ptr < |s|
    ensures Decoding(s[ptr..]) ==
      if ptr + 4 > |s| then None
      else
        var head, tail := Unquad(s[ptr..ptr + 4], ptr + 4 == |s|), Decoding(s[ptr + 4..]);
        if head.Some? && tail.Some? then Some(head.value + tail.value) else None
  {
    if ptr + 4 <= |s| {
      assert s[ptr..][..4] == s[ptr..ptr + 4] && s[ptr..][4..] == s[ptr + 4..];
    }
  }

  function Prepended(x: seq<Byte>, rest: Option<seq<Byte>>): Option<seq<Byte>> {
    if rest.Some? then Some(x + rest.value) else None
  }

  /** What is left is no group of letters and padding. */
  lemma Shapeless(s: seq<Byte>, ptr: nat)
    requires ptr < |s| && (ptr + 4 <= |s| ==> forall k :: 0 <= k <= 4 ==> !Shape(s, ptr, 4, k))
    ensures Decoding(s[ptr..]) == None
  {
    DecodingStep(s, ptr);
    if ptr + 4 <= |s| { ShapeIs(s, ptr, ptr + 4 == |s|); }
  }

  /** A group has padding that may not be there. */
  lemma Misplaced(s: seq<Byte>, ptr: nat, padding: nat)
    requires ptr + 4 <= |s| && padding <= 4 && Shape(s, ptr, 4, padding)
    requires padding > 2 || (padding > 0 && ptr + 4 != |s|)
    ensures Decoding(s[ptr..]) == None
  {
    DecodingStep(s, ptr);
    ShapeIs(s, ptr, ptr + 4 == |s|);
  }

  /** A group stands for the bytes x. */
  lemma GroupDecodes(s: seq<Byte>, ptr: nat, padding: nat, x: seq<Byte>)
    requires ptr + 4 <= |s| && padding <= 2 && (padding == 0 || ptr + 4 == |s|) && Shape(s, ptr, 4, padding)
    requires |x| == 3 - padding && forall k :: 0 <= k < |x| ==> x[k] == Octet(Packed(s, ptr, 4), k)
    ensures Decoding(s[ptr..]) == Prepended(x, Decoding(s[ptr + 4..]))
  {
    DecodingStep(s, ptr);
    OctetsAre(s, ptr, padding, ptr + 4 == |s|);
    assert x == Unquad(s[ptr..ptr + 4], ptr + 4 == |s|).value;
  }

  /** The stores of one group. */
  method StoreGroup(buf: array<Byte>, at: nat, packed: nat, padding: nat) returns (next: nat)
    requires padding <= 2 && at + (3 - padding) <= buf.Length
    modifies buf
    ensures next == at + (3 - padding) && buf[..at] == old(buf[..at])
    ensures forall k :: 0 <= k < 3 - padding ==> buf[at + k] == Octet(packed, k)
  {
    next := at;
    buf[next] := (packed / 0x10000) % 256;
    next := next + 1;
    if padding != 2 {
      buf[next] := (packed / 0x100) % 256;
      next := next + 1;
    }
    if padding == 0 {
      buf[next] := packed % 256;
      next := next + 1;
    }
  }

  /**
   The body of base64decode's loop, writing at `at` of a buffer that has room; not ok is a return of "".
   */
  method DecodeGroup(src: seq<Byte>, ptr: nat, buf: array<Byte>, at: nat) returns (ok: bool, next: nat)
    requires ptr < |src| && buf.Length == |src| * 3 / 4 && 4 * at <= 3 * ptr
    modifies buf
    ensures !ok ==> Decoding(src[ptr..]) == None
    ensures ok ==> ptr + 4 <= |src| && at < next <= buf.Length && 4 * next <= 3 * (ptr + 4)
    ensures ok ==> buf[..at] == old(buf[..at])
    ensures ok ==> Decoding(src[ptr..]) == Prepended(buf[at..next], Decoding(src[ptr + 4..]))
  {
    var packed, padding;
    ok, packed, padding := ReadGroup(src, ptr);
    next := at;
    if !ok {
      Shapeless(src, ptr);
      return;
    }
    if padding > 0 && ptr + 4 != |src| {
      Misplaced(src, ptr, padding);
      return false, at;
    }
    if padding > 2 {
      Misplaced(src, ptr, padding);
      return false, at;
    }
    next := StoreGroup(buf, at, packed, padding);
    GroupDecodes(src, ptr, padding, buf[at..next]);
  }

  /** base64decode: "" stands for rejected input, and for the empty string. */
  method Decode(src: seq<Byte>) returns (result: seq<Byte>)
    ensures result == if Decoding(src).Some? then Decoding(src).value else []
    ensures result == [] <==> !Accepted(src) || src == []
  {
    var buf := new Byte[|src| * 3 / 4];
    var ptr, at := 0, 0;
    assert src[0..] == src && buf[..0] == [];
    PrependNone(Decoding(src));
    DecodesIffAccepted(src);
    DecodingNonEmpty(src);
    while ptr < |src|
      invariant 0 <= ptr <= |src| && 0 <= at <= buf.Length && 4 * at <= 3 * ptr
      invariant Decoding(src) == Prepended(buf[..at], Decoding(src[ptr..]))
    {
      ghost var was := buf[..at];
      var ok, next := DecodeGroup(src, ptr, buf, at);
      if !ok { return []; }
      PrependMore(was, buf[at..next], Decoding(src[ptr + 4..]));
      assert buf[..next] == was + buf[at..next];
      ptr, at := ptr + 4, next;
    }
    assert src[ptr..] == [] && buf[..at] + [] == buf[..at];
    return buf[..at];
  }

  lemma PrependNone(rest: Option<seq<Byte>>)
    ensures Prepended([], rest) == rest
  {
    if rest.Some? { assert [] + rest.value == rest.value; }
  }

  lemma PrependMore(x: seq<Byte>, y: seq<Byte>, rest: Option<seq<Byte>>)
    ensures Prepended(x, Prepended(y, rest)) == Prepended(x + y, rest)
  {
    if rest.Some? { assert x + (y + rest.value) == x + y + rest.value; }
  }

  lemma DecodingNonEmpty(s: seq<Byte>)
    ensures Decoding(s).Some? && s != [] ==> Decoding(s).value != []
  {
  }

}
