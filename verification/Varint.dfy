/** The variable-length and zigzag integer codecs of ByteArray, as values. */
module Varint {
  import opened Blocks
  import Bits

  const W32: nat := 0x1_0000_0000
  const W64: nat := 0x1_0000_0000_0000_0000

  /** How many bytes the reader takes at most: its shift runs 0, 7, 14, ... below the width. */
  function MaxBytes(wide: bool): nat {
    if wide then 10 else 5
  }

  function Modulus(wide: bool): nat {
    if wide then W64 else W32
  }

  /** What writeUint32 and writeUint64 emit: seven bits a byte, low bits first, top bit for "more". */
  function Encode(v: nat): (s: seq<Byte>)
    ensures |s| > 0
  {
    if v < 128 then [v] else [v % 128 + 128] + Encode(v / 128)
  }

  /** Group i of seven bits of v, counted from the least significant. */
  function GroupOf(v: nat, i: nat): nat {
    if i == 0 then v % 128 else GroupOf(v / 128, i - 1)
  }

  /** Byte i holds group i, least significant first, and says by 128 whether another follows. */
  lemma {:induction false} EncodeAt(v: nat, i: nat)
    requires i < |Encode(v)|
    ensures Encode(v)[i] == GroupOf(v, i) + if i + 1 < |Encode(v)| then 128 else 0
  {
    if i > 0 { EncodeAt(v / 128, i - 1); }
  }

  /** As in 300. */
  lemma EncodeRead()
    ensures Encode(300) == [0xAC, 0x02]
  {
    assert Encode(2) == [2] && Encode(300) == [300 % 128 + 128] + Encode(2);
  }

  datatype Parsed = Parsed(value: nat, used: nat) | Short

  /** The number spelled by the first bytes of s, reading up to n of them. */
  function Spelled(s: seq<Byte>, n: nat): Parsed {
    if n == 0 then Parsed(0, 0)
    else if s == [] then Short
    else if s[0] < 128 then Parsed(s[0], 1)
    else match Spelled(s[1..], n - 1)
      case Parsed(v, k) => Parsed(s[0] % 128 + 128 * v, k + 1)
      case Short => Short
  }

  /** What readUint32 and readUint64 return: bits shifted out at the top are lost. */
  function Decode(s: seq<Byte>, wide: bool): Parsed {
    match Spelled(s, MaxBytes(wide))
    case Parsed(v, k) => Parsed(v % Modulus(wide), k)
    case Short => Short
  }

  function Pow128(k: nat): (p: nat)
    ensures p > 0
  {
    if k == 0 then 1 else 128 * Pow128(k - 1)
  }

  /** An encoding has k bytes exactly when v needs k groups of seven bits. */
  lemma {:induction false} EncodeLength(v: nat, k: nat)
    requires k > 0
    ensures |Encode(v)| <= k <==> v < Pow128(k)
  {
    if v >= 128 {
      if k > 1 {
        EncodeLength(v / 128, k - 1);
        assert v == 128 * (v / 128) + v % 128;
      } else {
        assert Pow128(1) == 128 * Pow128(0);
      }
    } else {
      PowAtLeast(k);
    }
  }

  lemma PowAtLeast(k: nat)
    requires k > 0
    ensures Pow128(k) >= 128
  {
    if k > 1 { PowAtLeast(k - 1); }
  }

  lemma PowMono(j: nat, k: nat)
    requires j <= k
    ensures Pow128(j) <= Pow128(k)
  {
    if j < k { PowMono(j, k - 1); }
  }

  /** An encoding followed by anything spells the number and stops at its own last byte. */
  lemma {:induction false} SpelledEncode(v: nat, rest: seq<Byte>, n: nat)
    requires |Encode(v)| <= n
    ensures Spelled(Encode(v) + rest, n) == Parsed(v, |Encode(v)|)
  {
    var s := Encode(v) + rest;
    if v >= 128 {
      SpelledEncode(v / 128, rest, n - 1);
      assert s[1..] == Encode(v / 128) + rest;
    }
  }

  /** k bytes spell no more than k groups of seven bits hold. */
  lemma {:induction false} SpelledBound(s: seq<Byte>, n: nat)
    ensures Spelled(s, n).Parsed? ==>
      Spelled(s, n).used <= n && Spelled(s, n).used <= |s| && Spelled(s, n).value < Pow128(Spelled(s, n).used)
  {
    if n > 0 && s != [] {
      SpelledBound(s[1..], n - 1);
      assert Pow128(1) == 128 * Pow128(0);
    }
  }

  lemma Powers()
    ensures Pow128(4) < W32 < Pow128(5) && Pow128(9) < W64 < Pow128(10)
  {
    assert Pow128(4) == 0x1000_0000;
    assert Pow128(9) == 0x8000_0000_0000_0000 by {
      assert Pow128(8) == 0x100_0000_0000_0000 by { assert Pow128(6) == 0x400_0000_0000; }
    }
    assert Pow128(5) == 128 * Pow128(4) && Pow128(10) == 128 * Pow128(9);
  }

  /** Every 32-bit value takes 1 to 5 bytes and every 64-bit value 1 to 10. */
  lemma EncodeFits(v: nat, wide: bool)
    requires v < Modulus(wide)
    ensures 1 <= |Encode(v)| <= MaxBytes(wide)
  {
    Powers();
    EncodeLength(v, MaxBytes(wide));
  }

  /** Decoding undoes encoding, whatever follows: the encoding delimits itself. */
  lemma DecodeEncode(v: nat, rest: seq<Byte>, wide: bool)
    requires v < Modulus(wide)
    ensures Decode(Encode(v) + rest, wide) == Parsed(v, |Encode(v)|)
  {
    EncodeFits(v, wide);
    SpelledEncode(v, rest, MaxBytes(wide));
  }

  /** No accepted spelling of a value is shorter than its encoding. */
  lemma EncodeMinimal(s: seq<Byte>, wide: bool)
    requires Decode(s, wide).Parsed?
    ensures |Encode(Decode(s, wide).value)| <= Decode(s, wide).used <= |s|
  {
    var n, w := MaxBytes(wide), Modulus(wide);
    SpelledBound(s, n);
    Powers();
    var v, k := Spelled(s, n).value, Spelled(s, n).used;
    SpelledUses(s, n);
    if k < n {
      PowMono(k, n - 1);
      assert v % w == v;
      EncodeLength(v, k);
    } else {
      EncodeFits(v % w, wide);
    }
  }

  lemma SpelledUses(s: seq<Byte>, n: nat)
    requires n > 0 && Spelled(s, n).Parsed?
    ensures Spelled(s, n).used > 0
  {
  }

  /** The reader runs out exactly when every byte asks for more and the limit is not reached. */
  lemma {:induction false} ShortIffRunsOut(s: seq<Byte>, n: nat)
    ensures Spelled(s, n).Short? <==> |s| < n && forall i :: 0 <= i < |s| ==> s[i] >= 128
  {
    if n > 0 && s != [] {
      ShortIffRunsOut(s[1..], n - 1);
      if s[0] >= 128 {
        assert (forall i :: 0 <= i < |s| ==> s[i] >= 128) ==> forall i :: 0 <= i < |s| - 1 ==> s[1..][i] >= 128;
        if forall i :: 0 <= i < |s| - 1 ==> s[1..][i] >= 128 {
          forall i | 0 <= i < |s| ensures s[i] >= 128 { if i > 0 { assert s[1..][i - 1] >= 128; } }
        }
      }
    }
  }

  // Two's complement, with w the number of values.

  function Unsigned(x: int, w: nat): (u: nat)
    requires w > 0
    ensures u < w
  {
    x % w
  }

  function Signed(x: int, w: nat): int
    requires w > 0
  {
    if x % w < w / 2 then x % w else x % w - w
  }

  predicate IsSigned(x: int, w: nat) {
    -(w as int) <= 2 * x < w
  }

  /** EncodeZigzag32 and EncodeZigzag64; the negation of the least value wraps to itself. */
  function ZigzagEncode(v: int, w: nat): (u: nat)
    requires w > 0
    ensures u < w
  {
    if v < 0 then Unsigned(Unsigned(Signed(-v, w), w) * 2 - 1, w)
    else Unsigned(Signed(v * 2, w), w)
  }

  /** DecodeZigzag32 and DecodeZigzag64. */
  function ZigzagDecode(u: nat, w: nat): int
    requires w > 1
  {
    Signed(Bits.Xor(u / 2, Unsigned(-(u % 2), w)), w)
  }

  /** What zigzag means: 0, -1, 1, -2, 2 ... become 0, 1, 2, 3, 4 ..., the least value included. */
  lemma ZigzagMeaning(v: int, w: nat)
    requires w > 1 && w % 2 == 0 && IsSigned(v, w)
    ensures ZigzagEncode(v, w) == if v < 0 then -2 * v - 1 else 2 * v
  {
    if v < 0 {
      if -v == w / 2 {
        WrapOnce(-v, w);
        WrapOnce(-v - w, w);
        WrapOnce(w - 1, w);
      } else {
        WrapOnce(-v, w);
        WrapOnce(-2 * v - 1, w);
      }
    } else {
      WrapOnce(v * 2, w);
      WrapOnce(v * 2 - w, w);
    }
  }

  lemma WrapOnce(x: int, w: nat)
    requires -(w as int) <= x < w && w > 0
    ensures x % w == if x < 0 then x + w else x
  {
    if x < 0 { assert (x + w) % w == x + w; AddModulus(x, w); }
  }

  lemma AddModulus(x: int, w: nat)
    requires w > 0
    ensures (x + w) % w == x % w
  {
    var q, r := x / w, x % w;
    assert x + w == (q + 1) * w + r;
    Bits.ModIs(x + w, q + 1, r, w);
  }

  /** The two word sizes. */
  predicate IsWord(w: nat) {
    w == W32 || w == W64
  }

  lemma UnzigzagMeaning(u: nat, w: nat)
    requires IsWord(w) && u < w
    ensures ZigzagDecode(u, w) == if u % 2 == 1 then -(u / 2) - 1 else u / 2
  {
    var h := u / 2;
    if u % 2 == 1 {
      WrapOnce(-1, w);
      Complement(h, w);
      WrapOnce(w - 1 - h, w);
    } else {
      WrapOnce(0, w);
      Bits.XorZero(h);
      WrapOnce(h, w);
    }
  }

  lemma Complement(h: nat, w: nat)
    requires IsWord(w) && h < w
    ensures Bits.Xor(h, w - 1) == w - 1 - h
  {
    Bits.WordSizes();
    Bits.XorAllOnes(h, if w == W32 then 32 else 64);
  }

  /** Decoding undoes encoding on every signed value ... */
  lemma ZigzagRoundTrip(v: int, w: nat)
    requires IsWord(w) && IsSigned(v, w)
    ensures ZigzagDecode(ZigzagEncode(v, w), w) == v
  {
    ZigzagMeaning(v, w);
    UnzigzagMeaning(ZigzagEncode(v, w), w);
  }

  /** ... and encoding undoes decoding on every word, so zigzag is a bijection. */
  lemma ZigzagOnto(u: nat, w: nat)
    requires IsWord(w) && u < w
    ensures IsSigned(ZigzagDecode(u, w), w) && ZigzagEncode(ZigzagDecode(u, w), w) == u
  {
    UnzigzagMeaning(u, w);
    ZigzagMeaning(ZigzagDecode(u, w), w);
  }

}
