/** The flat buffer that a ByteArray must be indistinguishable from. */
module FlatBuffer {
  import opened Blocks

  /** The whole capacity, of which the first `size` bytes are data, and a cursor. */
  datatype Flat = Flat(bytes: seq<Byte>, size: nat, position: nat)

  predicate Ok(f: Flat) {
    f.position <= f.size <= |f.bytes|
  }

  function Data(f: Flat): seq<Byte>
    requires Ok(f)
  {
    f.bytes[..f.size]
  }

  lemma DataSlice(f: Flat, p: nat, n: nat)
    requires Ok(f) && p + n <= f.size
    ensures Data(f)[p..p + n] == f.bytes[p..p + n]
  {
  }

  function ReadSize(f: Flat): nat
    requires Ok(f)
  {
    f.size - f.position
  }

  function CeilDiv(n: nat, b: nat): nat
    requires b > 0
  {
    (n + b - 1) / b
  }

  /** How many bytes addCapacity(n) adds: whole blocks, as few as bring the room up to n bytes. */
  function Growth(room: nat, b: nat, n: nat): (g: nat)
    requires b > 0
    ensures n <= room + g
  {
    if n <= room then 0 else CeilCovers(n - room, b); CeilDiv(n - room, b) * b
  }

  lemma CeilCovers(n: nat, b: nat)
    requires b > 0
    ensures CeilDiv(n, b) * b >= n && (n > 0 ==> (CeilDiv(n, b) - 1) * b < n)
    ensures CeilDiv(n, b) * b >= 0
  {
    var q := CeilDiv(n, b);
    assert n + b - 1 == q * b + (n + b - 1) % b;
    assert (q - 1) * b == q * b - b;
  }

  function Min(a: nat, b: nat): nat {
    if a < b then a else b
  }

  function Max(a: nat, b: nat): nat {
    if a < b then b else a
  }

  /** write: pad is what the new blocks happen to contain. */
  function Write(f: Flat, x: seq<Byte>, pad: seq<Byte>): (r: Flat)
    requires Ok(f) && f.position + |x| <= |f.bytes| + |pad|
    ensures Ok(r) && |r.bytes| == |f.bytes| + |pad|
  {
    Flat(Splice(f.bytes + pad, f.position, x), Max(f.size, f.position + |x|), f.position + |x|)
  }

  lemma EmptyWrite(f: Flat)
    requires Ok(f)
    ensures Write(f, [], []) == f
  {
  }

  /** Growing the bytes first and writing into them afterwards is a write. */
  lemma GrowThenWrite(f: Flat, grown: seq<Byte>, x: seq<Byte>, now: Flat)
    requires Ok(f) && f.bytes <= grown && f.position + |x| <= |grown|
    requires now == Flat(Splice(grown, f.position, x), Max(f.size, f.position + |x|), f.position + |x|)
    ensures now == Write(f, x, now.bytes[|f.bytes|..])
  {
  }

  function Read(f: Flat, n: nat): (r: (Flat, seq<Byte>))
    requires Ok(f) && n <= ReadSize(f)
    ensures Ok(r.0) && |r.1| == n
  {
    (f.(position := f.position + n), f.bytes[f.position..f.position + n])
  }

  function Seek(f: Flat, v: nat): (r: Flat)
    requires Ok(f) && v <= |f.bytes|
    ensures Ok(r)
  {
    f.(position := v, size := Max(f.size, v))
  }

  /** What setPosition passes over becomes readable, and the data stays what it was. */
  lemma SeekReads(f: Flat, v: nat)
    requires Ok(f) && v <= |f.bytes|
    ensures Data(f) <= Data(Seek(f, v)) && |Data(Seek(f, v))| == Max(|Data(f)|, v)
    ensures ReadSize(Seek(Seek(f, v), 0)) == Max(f.size, v)
    ensures Read(Seek(Seek(f, v), 0), v).1 == f.bytes[..v]
  {
  }

  function Clear(f: Flat, b: nat): (r: Flat)
    requires b <= |f.bytes|
    ensures Ok(r) && Data(r) == []
  {
    Flat(f.bytes[..b], 0, 0)
  }

  /** g is f after writing x, in an array of b-byte blocks that grows by as few blocks as it must. */
  ghost predicate Wrote(f: Flat, x: seq<Byte>, g: Flat, b: nat) {
    && Ok(f) && |f.bytes| <= |g.bytes| && f.position + |x| <= |g.bytes|
    && g == Write(f, x, g.bytes[|f.bytes|..])
    && (|g.bytes| == |f.bytes| || |g.bytes| < g.position + b)
  }

  lemma WroteNothing(f: Flat, b: nat)
    requires Ok(f)
    ensures Wrote(f, [], f, b)
  {
    EmptyWrite(f);
  }

  lemma WriteIsWrote(f: Flat, x: seq<Byte>, g: Flat, b: nat)
    requires Ok(f) && b > 0 && |g.bytes| == |f.bytes| + Growth(|f.bytes| - f.position, b, |x|)
    requires g == Write(f, x, g.bytes[|f.bytes|..])
    ensures Wrote(f, x, g, b)
  {
    var room := |f.bytes| - f.position;
    if |x| > room {
      CeilCovers(|x| - room, b);
      assert (CeilDiv(|x| - room, b) - 1) * b == CeilDiv(|x| - room, b) * b - b;
    }
  }

  /** Two writes in a row are one write of both. */
  lemma WroteMore(f: Flat, x: seq<Byte>, g: Flat, y: seq<Byte>, h: Flat, b: nat)
    requires Wrote(f, x, g, b) && Wrote(g, y, h, b)
    ensures Wrote(f, x + y, h, b)
  {
    var c, p, n := |f.bytes|, f.position, |x| + |y|;
    var now := Splice(f.bytes + h.bytes[c..], p, x + y);
    forall i | 0 <= i < |h.bytes| ensures h.bytes[i] == now[i] {
      if p <= i < p + |x| {
        assert h.bytes[i] == g.bytes[i] == x[i - p];
      } else if p + |x| <= i < p + n {
        assert h.bytes[i] == y[i - p - |x|];
      } else if i < c {
        assert h.bytes[i] == g.bytes[i] == f.bytes[i];
      }
    }
    assert h.bytes == now;
  }

  /** What was written is what lies there to be read. */
  lemma WroteReadable(f: Flat, x: seq<Byte>, g: Flat, b: nat)
    requires Wrote(f, x, g, b)
    ensures g.position == f.position + |x| <= g.size && g.bytes[f.position..g.position] == x
  {
  }

}
