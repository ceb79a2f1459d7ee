/** StringUtil::UrlEncode and UrlDecode: percent-encoding with lazily made copies. */
module UrlCodec {
  import opened Options
  import opened Blocks

  const SPACE: Byte := 32
  const PERCENT: Byte := 37
  const PLUS: Byte := 43

  /** uri_chars: letters, digits, and - . = _ ~ (the table, unlike its comment, has =). */
  predicate Unreserved(c: Byte) {
    48 <= c <= 57 || 65 <= c <= 90 || 97 <= c <= 122 || c == 45 || c == 46 || c == 61 || c == 95 || c == 126
  }

  function HexDigit(v: nat): Byte
    requires v < 16
  {
    if v < 10 then 48 + v else 65 + (v - 10)
  }

  predicate IsHex(c: Byte) {
    48 <= c <= 57 || 65 <= c <= 70 || 97 <= c <= 102
  }

  /** xdigit_chars. */
  function HexValue(c: Byte): (v: nat)
    ensures v < 16
  {
    if 48 <= c <= 57 then c - 48 else if 65 <= c <= 70 then c - 55 else if 97 <= c <= 102 then c - 87 else 0
  }

  /** The table, as text. */
  lemma UnreservedText(c: Byte)
    ensures Unreserved(c) <==>
      'a' <= c as char <= 'z' || 'A' <= c as char <= 'Z' || '0' <= c as char <= '9' || c as char in "-._~="
  {
    var marks := "-._~=";
    assert marks[0] == '-' && marks[1] == '.' && marks[2] == '_' && marks[3] == '~' && marks[4] == '=';
  }

  /** The digits printed are upper-case; read are both cases. */
  lemma HexText(v: nat)
    requires v < 16
    ensures HexDigit(v) as char == "0123456789ABCDEF"[v]
    ensures HexValue("0123456789abcdef"[v] as int) == v == HexValue("0123456789ABCDEF"[v] as int)
    ensures IsHex("0123456789abcdef"[v] as int) && IsHex("0123456789ABCDEF"[v] as int)
  {
  }

  // What the two functions mean, byte by byte.

  function EncodeByte(c: Byte, plus: bool): (s: seq<Byte>)
    ensures |s| > 0
  {
    if Unreserved(c) then [c]
    else if c == SPACE && plus then [PLUS]
    else [PERCENT, HexDigit(c / 16), HexDigit(c % 16)]
  }

  function Encoding(s: seq<Byte>, plus: bool): seq<Byte> {
    if s == [] then [] else EncodeByte(s[0], plus) + Encoding(s[1..], plus)
  }

  /** A byte and its two hex digits are all there at i. */
  predicate EscapeAt(s: seq<Byte>, i: nat) {
    i + 2 < |s| && s[i] == PERCENT && IsHex(s[i + 1]) && IsHex(s[i + 2])
  }

  /** What the bytes of s from i on stand for. */
  function Decoding(s: seq<Byte>, i: nat, plus: bool): seq<Byte>
    decreases |s| - i
  {
    if i >= |s| then []
    else if s[i] == PLUS && plus then [SPACE] + Decoding(s, i + 1, plus)
    else if EscapeAt(s, i) then [HexValue(s[i + 1]) * 16 + HexValue(s[i + 2])] + Decoding(s, i + 3, plus)
    else [s[i]] + Decoding(s, i + 1, plus)
  }

  /** Text without escapes, and without + where it is read as a space, decodes to itself. */
  lemma {:induction false} RawKept(s: seq<Byte>, i: nat, plus: bool)
    requires i <= |s| && forall k :: i <= k < |s| ==> s[k] != 37 && (s[k] != 43 || !plus)
    ensures Decoding(s, i, plus) == s[i..]
    decreases |s| - i
  {
    if i < |s| {
      RawKept(s, i + 1, plus);
      assert s[i..] == [s[i]] + s[i + 1..];
    }
  }

  /** A % before anything but two hexadecimal digits stands for itself. */
  lemma PercentKept(s: seq<Byte>, i: nat, plus: bool)
    requires i < |s| && s[i] == 37 && (i + 2 >= |s| || !IsHex(s[i + 1]) || !IsHex(s[i + 2]))
    ensures Decoding(s, i, plus) == [37] + Decoding(s, i + 1, plus)
  {
  }

  lemma HexRoundTrip(c: Byte)
    ensures IsHex(HexDigit(c / 16)) && IsHex(HexDigit(c % 16))
    ensures HexValue(HexDigit(c / 16)) * 16 + HexValue(HexDigit(c % 16)) == c
  {
  }

  /** What one encoded byte decodes to: itself, but a + for a space stays a + where + is not read as one. */
  function Seen(c: Byte, encodePlus: bool, decodePlus: bool): Byte {
    if c == SPACE && encodePlus && !decodePlus then PLUS else c
  }

  lemma DecodeByte(c: Byte, e: bool, d: bool, before: seq<Byte>, after: seq<Byte>)
    ensures Decoding(before + EncodeByte(c, e) + after, |before|, d)
      == [Seen(c, e, d)] + Decoding(before + EncodeByte(c, e) + after, |before| + |EncodeByte(c, e)|, d)
  {
    HexRoundTrip(c);
    var s := before + EncodeByte(c, e) + after;
    assert s[|before|] == EncodeByte(c, e)[0];
    if !Unreserved(c) && !(c == SPACE && e) {
      assert s[|before| + 1] == EncodeByte(c, e)[1] && s[|before| + 2] == EncodeByte(c, e)[2];
    }
  }

  function AllSeen(s: seq<Byte>, e: bool, d: bool): (r: seq<Byte>)
    ensures |r| == |s| && forall i :: 0 <= i < |s| ==> r[i] == Seen(s[i], e, d)
  {
    if s == [] then [] else [Seen(s[0], e, d)] + AllSeen(s[1..], e, d)
  }

  lemma {:induction false} DecodeEncoding(s: seq<Byte>, e: bool, d: bool, before: seq<Byte>)
    ensures Decoding(before + Encoding(s, e), |before|, d) == AllSeen(s, e, d)
    decreases |s|
  {
    if s != [] {
      var c := EncodeByte(s[0], e);
      var rest := Encoding(s[1..], e);
      DecodeByte(s[0], e, d, before, rest);
      assert before + Encoding(s, e) == before + c + rest;
      DecodeEncoding(s[1..], e, d, before + c);
    }
  }

  /** Decoding undoes encoding unless a space was written as + and + is not read as a space. */
  lemma RoundTripIff(s: seq<Byte>, encodePlus: bool, decodePlus: bool)
    ensures Decoding(Encoding(s, encodePlus), 0, decodePlus) == s <==> decodePlus || !encodePlus || SPACE !in s
  {
    DecodeEncoding(s, encodePlus, decodePlus, []);
    assert [] + Encoding(s, encodePlus) == Encoding(s, encodePlus);
    var r := AllSeen(s, encodePlus, decodePlus);
    if decodePlus || !encodePlus || SPACE !in s {
      assert r == s;
    } else {
      var i :| 0 <= i < |s| && s[i] == SPACE;
      assert r[i] == PLUS;
    }
  }

  /** An encoding holds only unreserved bytes, + and %: so neither & nor ; nor a space. */
  lemma {:induction false} EncodingClean(s: seq<Byte>, plus: bool, i: nat)
    requires i < |Encoding(s, plus)|
    ensures Unreserved(Encoding(s, plus)[i]) || Encoding(s, plus)[i] == PLUS || Encoding(s, plus)[i] == PERCENT
    decreases |s|
  {
    var c := EncodeByte(s[0], plus);
    if i >= |c| {
      EncodingClean(s[1..], plus, i - |c|);
    }
  }

  lemma {:induction false} EncodingSnoc(s: seq<Byte>, c: Byte, plus: bool)
    ensures Encoding(s + [c], plus) == Encoding(s, plus) + EncodeByte(c, plus)
  {
    if s == [] {
      assert Encoding([c], plus) == EncodeByte(c, plus) + Encoding([c][1..], plus);
    } else {
      assert (s + [c])[1..] == s[1..] + [c];
      EncodingSnoc(s[1..], c, plus);
    }
  }

  /** What the loops have made so far: a copy, or while that is null the first c bytes as they are. */
  function SoFar(ss: Option<seq<Byte>>, str: seq<Byte>, c: nat): seq<Byte>
    requires c <= |str|
  {
    if ss.None? then str[..c] else ss.value
  }

  lemma EncodingNext(str: seq<Byte>, c: nat, plus: bool)
    requires c < |str|
    ensures Encoding(str[..c + 1], plus) == Encoding(str[..c], plus) + EncodeByte(str[c], plus)
  {
    EncodingSnoc(str[..c], str[c], plus);
    assert str[..c + 1] == str[..c] + [str[c]];
  }

  /** The body of UrlEncode's loop: the copy is made when the first byte needs escaping. */
  method EncodeNext(str: seq<Byte>, c: nat, plus: bool, ss: Option<seq<Byte>>) returns (more: Option<seq<Byte>>)
    requires c < |str|
    ensures SoFar(more, str, c + 1) == SoFar(ss, str, c) + EncodeByte(str[c], plus)
  {
    more := ss;
    if !Unreserved(str[c]) {
      if more.None? { more := Some(str[..c]); }
      if str[c] == SPACE && plus {
        more := Some(more.value + [PLUS]);
      } else {
        more := Some(more.value + [PERCENT]);
        more := Some(more.value + [HexDigit(str[c] / 16)]);
        more := Some(more.value + [HexDigit(str[c] % 16)]);
      }
    } else if more.Some? {
      more := Some(more.value + [str[c]]);
    }
  }

  /** UrlEncode. */
  method UrlEncode(str: seq<Byte>, plus: bool) returns (r: seq<Byte>)
    ensures r == Encoding(str, plus)
  {
    var ss: Option<seq<Byte>> := None;
    var c := 0;
    while c < |str|
      invariant 0 <= c <= |str| && SoFar(ss, str, c) == Encoding(str[..c], plus)
    {
      EncodingNext(str, c, plus);
      ss := EncodeNext(str, c, plus, ss);
      c := c + 1;
    }
    assert str[..c] == str;
    return if ss.None? then str else ss.value;
  }

  /** The body of UrlDecode's loop: the byte it puts out, and where it goes on. */
  method DecodeNext(str: seq<Byte>, c: nat, plus: bool, ss: Option<seq<Byte>>)
    returns (more: Option<seq<Byte>>, next: nat)
    requires c < |str|
    ensures c < next <= |str|
    ensures SoFar(more, str, next) + Decoding(str, next, plus) == SoFar(ss, str, c) + Decoding(str, c, plus)
  {
    more, next := ss, c + 1;
    var b := str[c];
    if str[c] == PLUS && plus {
      if more.None? { more := Some(str[..c]); }
      b := SPACE;
      more := Some(more.value + [b]);
    } else if str[c] == PERCENT && c + 2 < |str| && IsHex(str[c + 1]) && IsHex(str[c + 2]) {
      if more.None? { more := Some(str[..c]); }
      b := HexValue(str[c + 1]) * 16 + HexValue(str[c + 2]);
      more := Some(more.value + [b]);
      next := c + 3;
    } else if more.Some? {
      more := Some(more.value + [b]);
    }
    assert SoFar(more, str, next) == SoFar(ss, str, c) + [b];
    Shift(SoFar(ss, str, c), b, Decoding(str, next, plus));
  }

  lemma Shift(x: seq<Byte>, b: Byte, y: seq<Byte>)
    ensures x + [b] + y == x + ([b] + y)
  {
  }

  /** UrlDecode. */
  method UrlDecode(str: seq<Byte>, plus: bool) returns (r: seq<Byte>)
    ensures r == Decoding(str, 0, plus)
  {
    var ss: Option<seq<Byte>> := None;
    var c := 0;
    while c < |str|
      invariant 0 <= c <= |str| && SoFar(ss, str, c) + Decoding(str, c, plus) == Decoding(str, 0, plus)
    {
      ss, c := DecodeNext(str, c, plus, ss);
    }
    assert str[..c] == str;
    r := if ss.None? then str else ss.value;
    assert r + [] == r;
  }

}
