/** hexstring_from_data and data_from_hexstring. */
module Hex {
  import opened Options
  import opened Blocks
  import opened UrlCodec

  /** The printed digits are lower-case; read are both cases, as IsHex and HexValue of the other codec say. */
  function Digit(v: nat): Byte
    requires v < 16
  {
    if v > 9 then v + 97 - 10 else v + 48
  }

  /** Character i of the text of data. */
  function DigitAt(data: seq<Byte>, i: nat): Byte
    requires i < 2 * |data|
  {
    if i % 2 == 0 then Digit(data[i / 2] / 16) else Digit(data[i / 2] % 16)
  }

  function Hexed(data: seq<Byte>): (s: seq<Byte>)
    ensures |s| == 2 * |data| && forall i :: 0 <= i < |s| ==> s[i] == DigitAt(data, i)
  {
    seq(2 * |data|, i requires 0 <= i < 2 * |data| => DigitAt(data, i))
  }

  /** Byte k of what text s stands for. */
  function ByteAt(s: seq<Byte>, k: nat): Byte
    requires 2 * k + 1 < |s|
  {
    HexValue(s[2 * k]) * 16 + HexValue(s[2 * k + 1])
  }

  function Unhexed(s: seq<Byte>): (data: seq<Byte>)
    ensures |data| == |s| / 2 && forall k :: 0 <= k < |data| ==> data[k] == ByteAt(s, k)
  {
    seq(|s| / 2, k requires 0 <= k < |s| / 2 => ByteAt(s, k))
  }

  predicate Accepted(s: seq<Byte>) {
    |s| % 2 == 0 && forall i :: 0 <= i < |s| ==> IsHex(s[i])
  }

  predicate UpperDigit(c: Byte) {
    65 <= c <= 70
  }

  /** The text has two lower-case digits a byte, the higher first. */
  lemma HexedAt(data: seq<Byte>, k: nat)
    requires k < |data|
    ensures Hexed(data)[2 * k] as char == "0123456789abcdef"[data[k] / 16]
    ensures Hexed(data)[2 * k + 1] as char == "0123456789abcdef"[data[k] % 16]
  {
    DigitText(data[k] / 16);
    DigitText(data[k] % 16);
    assert Hexed(data)[2 * k] == DigitAt(data, 2 * k) && Hexed(data)[2 * k + 1] == DigitAt(data, 2 * k + 1);
  }

  lemma DigitText(v: nat)
    requires v < 16
    ensures Digit(v) as char == "0123456789abcdef"[v]
  {
  }

  lemma DigitBack(v: nat)
    requires v < 16
    ensures IsHex(Digit(v)) && HexValue(Digit(v)) == v && !UpperDigit(Digit(v))
  {
  }

  /** Reading undoes printing on every byte string. */
  lemma RoundTrip(data: seq<Byte>)
    ensures Accepted(Hexed(data)) && Unhexed(Hexed(data)) == data
  {
    var s := Hexed(data);
    forall i | 0 <= i < |s| ensures IsHex(s[i]) {
      DigitBack(data[i / 2] / 16);
      DigitBack(data[i / 2] % 16);
    }
    forall k | 0 <= k < |data| ensures ByteAt(s, k) == data[k] {
      assert s[2 * k] == DigitAt(data, 2 * k) && s[2 * k + 1] == DigitAt(data, 2 * k + 1);
      DigitBack(data[k] / 16);
      DigitBack(data[k] % 16);
    }
  }

  /** The digits of the byte at k are those of the text, in lower case. */
  lemma PairBack(s: seq<Byte>, i: nat)
    requires Accepted(s) && i < |s|
    ensures Hexed(Unhexed(s))[i] == s[i] <==> !UpperDigit(s[i])
  {
    var k := i / 2;
    var b := ByteAt(s, k);
    assert b / 16 == HexValue(s[2 * k]) && b % 16 == HexValue(s[2 * k + 1]);
    assert i == 2 * k || i == 2 * k + 1;
  }

  /** Printing undoes reading on exactly the accepted texts without an upper-case digit. */
  lemma HexesBackIff(s: seq<Byte>)
    requires Accepted(s)
    ensures Hexed(Unhexed(s)) == s <==> forall i :: 0 <= i < |s| ==> !UpperDigit(s[i])
  {
    forall i | 0 <= i < |s| ensures Hexed(Unhexed(s))[i] == s[i] <==> !UpperDigit(s[i]) { PairBack(s, i); }
  }

  /** hexstring_from_data into a buffer. */
  method HexFromData(data: seq<Byte>, output: array<Byte>)
    requires 2 * |data| <= output.Length
    modifies output
    ensures forall j :: 0 <= j < 2 * |data| ==> output[j] == Hexed(data)[j]
    ensures forall j :: 2 * |data| <= j < output.Length ==> output[j] == old(output[j])
  {
    var i, j := 0, 0;
    while i < |data|
      invariant 0 <= i <= |data| && j == 2 * i
      invariant forall l :: 0 <= l < j ==> output[l] == DigitAt(data, l)
      invariant forall l :: j <= l < output.Length ==> output[l] == old(output[l])
    {
      output[j] := Digit(data[i] / 16);
      j := j + 1;
      output[j] := Digit(data[i] % 16);
      j := j + 1;
      i := i + 1;
    }
  }

  /** And into a string. */
  method HexString(data: seq<Byte>) returns (result: seq<Byte>)
    ensures result == Hexed(data)
  {
    if |data| == 0 { return []; }
    var output := new Byte[2 * |data|];
    HexFromData(data, output);
    result := output[..];
  }

  /** The two messages of std::invalid_argument. */
  datatype Error = OddLength | BadDigit

  /** data_from_hexstring into a buffer: it stops at the first pair that is not two digits, with n bytes written. */
  method DataFromHex(hex: seq<Byte>, output: array<Byte>) returns (error: Option<Error>, ghost n: nat)
    requires |hex| / 2 <= output.Length
    modifies output
    ensures error == Some(OddLength) <==> |hex| % 2 != 0
    ensures error.None? <==> Accepted(hex)
    ensures 2 * n <= |hex| && (error.None? ==> 2 * n == |hex|) && (error == Some(OddLength) ==> n == 0)
    ensures error == Some(BadDigit) ==> 2 * n + 1 < |hex| && !(IsHex(hex[2 * n]) && IsHex(hex[2 * n + 1]))
    ensures error != Some(OddLength) ==> forall l :: 0 <= l < 2 * n ==> IsHex(hex[l])
    ensures forall k :: 0 <= k < n ==> output[k] == ByteAt(hex, k)
    ensures forall k :: n <= k < output.Length ==> output[k] == old(output[k])
  {
    n := 0;
    if |hex| % 2 != 0 { return Some(OddLength), 0; }
    var i, buf := 0, 0;
    while i < |hex|
      invariant 0 <= i <= |hex| && i == 2 * buf && n == buf
      invariant forall l :: 0 <= l < i ==> IsHex(hex[l])
      invariant forall k :: 0 <= k < buf ==> output[k] == ByteAt(hex, k)
      invariant forall k :: buf <= k < output.Length ==> output[k] == old(output[k])
      decreases |hex| - i
    {
      if !IsHex(hex[i]) { return Some(BadDigit), n; }
      var byte := HexValue(hex[i]) * 16;
      i := i + 1;
      if !IsHex(hex[i]) { return Some(BadDigit), n; }
      byte := byte + HexValue(hex[i]);
      output[buf] := byte;
      buf, n := buf + 1, n + 1;
      i := i + 1;
    }
    return None, n;
  }

  /** And into a string: None where it throws. */
  method DataString(hex: seq<Byte>) returns (result: Option<seq<Byte>>)
    ensures result == if Accepted(hex) then Some(Unhexed(hex)) else None
  {
    if |hex| % 2 != 0 { return None; }
    if |hex| == 0 { return Some([]); }
    var output := new Byte[|hex| / 2];
    var error, n := DataFromHex(hex, output);
    if error.Some? { return None; }
    assert output[..] == Unhexed(hex);
    return Some(output[..]);
  }

}
