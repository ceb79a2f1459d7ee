/** Equal-size blocks laid end to end, as values: how a ByteArray's blocks hold its flat contents. */
module Blocks {

  type Byte = x: int | 0 <= x < 256

  /** The length of k blocks of b bytes, which is where block k starts. */
  function Span(k: nat, b: nat): nat {
    if k == 0 then 0 else Span(k - 1, b) + b
  }

  lemma SpanIs(k: nat, b: nat)
    ensures Span(k, b) == k * b
  {
    if k > 0 {
      SpanIs(k - 1, b);
      assert (k - 1) * b + b == k * b;
    }
  }

  lemma SpanAdd(j: nat, k: nat, b: nat)
    ensures Span(j + k, b) == Span(j, b) + Span(k, b)
  {
    if k > 0 {
      SpanAdd(j, k - 1, b);
      assert j + k - 1 == j + (k - 1);
    }
  }

  lemma SpanMono(j: nat, k: nat, b: nat)
    requires j <= k
    ensures Span(j, b) <= Span(k, b)
    ensures j < k ==> Span(j, b) + b <= Span(k, b)
  {
    if j < k {
      SpanMono(j, k - 1, b);
    }
  }

  lemma SpansBelow(n: nat, b: nat)
    ensures forall k :: 0 <= k < n ==> Span(k, b) + b <= Span(n, b)
  {
    forall k | 0 <= k < n ensures Span(k, b) + b <= Span(n, b) { SpanMono(k, n, b); }
  }

  /** Position p lies in block p / b, at offset p % b. */
  lemma BlockIs(p: nat, k: nat, b: nat)
    requires Span(k, b) <= p < Span(k, b) + b
    ensures p / b == k && p % b == p - Span(k, b)
  {
    var q, r := DivMod(p, b);
    SpanIs(q, b);
    if q < k {
      SpanMono(q, k, b);
    } else if k < q {
      SpanMono(k, q, b);
    }
  }

  lemma DivMod(p: nat, b: nat) returns (q: nat, r: nat)
    requires b > 0
    ensures q == p / b && r == p % b && p == q * b + r && r < b
  {
    q, r := p / b, p % b;
  }

  /** Byte i of s. */
  function Peek(s: seq<Byte>, i: nat): Byte {
    if i < |s| then s[i] else 0
  }

  /** s with x written over it from position p. */
  function Splice(s: seq<Byte>, p: nat, x: seq<Byte>): (r: seq<Byte>)
    requires p + |x| <= |s|
    ensures |r| == |s|
  {
    s[..p] + x + s[p + |x|..]
  }

  /** s with n bytes of x, from `from` on, written over it from position p. */
  function Put(s: seq<Byte>, p: nat, x: seq<Byte>, from: nat, n: nat): (r: seq<Byte>)
    requires p + n <= |s| && from + n <= |x|
    ensures |r| == |s|
    ensures forall i :: 0 <= i < |s| ==> r[i] == if p <= i < p + n then x[from + (i - p)] else s[i]
  {
    seq(|s|, i requires 0 <= i < |s| => if p <= i < p + n then x[from + (i - p)] else s[i])
  }

  /** now is s with the first n bytes of x written over it from position p. */
  ghost predicate Over(now: seq<Byte>, s: seq<Byte>, p: nat, x: seq<Byte>, n: nat) {
    && |now| == |s| && n <= |x| && p + n <= |s|
    && forall i :: 0 <= i < |now| ==> now[i] == if p <= i < p + n then x[i - p] else s[i]
  }

  lemma OverMore(now: seq<Byte>, s: seq<Byte>, p: nat, x: seq<Byte>, n: nat, m: nat)
    requires Over(now, s, p, x, n) && n + m <= |x| && p + n + m <= |s|
    ensures Over(Put(now, p + n, x, n, m), s, p, x, n + m)
  {
  }

  lemma OverIsSplice(now: seq<Byte>, s: seq<Byte>, p: nat, x: seq<Byte>)
    requires Over(now, s, p, x, |x|)
    ensures now == Splice(s, p, x)
  {
  }

  lemma SpliceIsOver(s: seq<Byte>, p: nat, x: seq<Byte>)
    requires p + |x| <= |s|
    ensures Over(Splice(s, p, x), s, p, x, |x|)
  {
  }

  /** out is what s has from position p on. */
  ghost predicate Copied(out: seq<Byte>, s: seq<Byte>, p: nat) {
    p + |out| <= |s| && forall i :: 0 <= i < |out| ==> out[i] == s[p + i]
  }

  lemma SliceMore(s: seq<Byte>, p: nat, m: nat, n: nat)
    requires m <= n && p + n <= |s|
    ensures s[p..p + n] == s[p..p + m] + s[p + m..p + n]
  {
  }

}
