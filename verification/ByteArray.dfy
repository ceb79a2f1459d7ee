/**
 ByteArray: a cursor over a linked list of equal-size blocks.  The ghost fields give the list of
 nodes and the flat contents that every operation is specified by.
 */
module ByteArray {
  import opened Options
  import opened Blocks
  import FlatBuffer

  class Node {
    const bytes: array<Byte>
    var next: Node?

    constructor (n: nat)
      ensures fresh(bytes) && bytes.Length == n && next == null
    {
      bytes := new Byte[n];
      next := null;
    }
  }

  /** One piece of a scatter/gather list. */
  datatype IoVec = IoVec(base: array<Byte>, offset: nat, len: nat)

  class ByteArray {
    const baseSize: nat
    var position: nat
    var capacity: nat
    var size: nat
    var bigEndian: bool
    var root: Node
    var cur: Node?
    ghost var nodes: seq<Node>
    ghost var at: nat
    ghost var contents: seq<Byte>
    ghost var Repr: set<object>

    /** The nodes form the list from root, with one array of baseSize bytes each. */
    ghost predicate Chain()
      reads this, Repr
    {
      && this in Repr && baseSize > 0 && |nodes| > 0 && nodes[0] == root
      && (forall i :: 0 <= i < |nodes| ==> nodes[i] in Repr && nodes[i].bytes in Repr)
      && (forall i :: 0 <= i < |nodes| ==> nodes[i].bytes.Length == baseSize)
      && (forall i :: 0 <= i < |nodes| - 1 ==> nodes[i].next == nodes[i + 1])
      && nodes[|nodes| - 1].next == null
      && (forall i, j :: 0 <= i < j < |nodes| ==> nodes[i] != nodes[j])
      && (forall i, j :: 0 <= i < j < |nodes| ==> nodes[i].bytes != nodes[j].bytes)
      && capacity == Span(|nodes|, baseSize)
    }

    /** The cursor is on block `at`, which holds the position; past the last block it is null. */
    ghost predicate AtCursor()
      reads this, Repr
    {
      && Chain()
      && at <= |nodes| && (at == |nodes| <==> position == capacity)
      && Span(at, baseSize) <= position < Span(at, baseSize) + baseSize
      && cur == if at < |nodes| then nodes[at] else null
    }

    /** The blocks hold the flat contents. */
    ghost predicate Stored()
      requires Chain()
      reads this, Repr
    {
      && |contents| == capacity
      && forall k, o :: 0 <= k < |nodes| && 0 <= o < baseSize ==>
           nodes[k].bytes[o] == Peek(contents, Span(k, baseSize) + o)
    }

    ghost predicate Valid()
      reads this, Repr
    {
      && AtCursor() && Stored()
      && position <= size <= capacity
    }

    /** The flat buffer this stands for. */
    ghost function View(): (f: FlatBuffer.Flat)
      reads this
    {
      FlatBuffer.Flat(contents, size, position)
    }

    constructor (baseSize: nat)
      requires baseSize > 0
      ensures Valid() && fresh(Repr)
      ensures this.baseSize == baseSize && capacity == baseSize && size == 0 && position == 0
      ensures bigEndian
    {
      this.baseSize := baseSize;
      position, capacity, size, bigEndian := 0, baseSize, 0, true;
      var first := new Node(baseSize);
      root := first;
      cur := first;
      nodes := [first];
      at := 0;
      contents := first.bytes[..];
      Repr := {this, first, first.bytes};
      new;
      assert Span(1, baseSize) == Span(0, baseSize) + baseSize;
    }

    /** The cursor is on block position / baseSize, and null exactly at capacity. */
    lemma CursorIs()
      requires Valid()
      ensures capacity == |nodes| * baseSize
      ensures at == position / baseSize
    {
      SpanIs(|nodes|, baseSize);
      BlockIs(position, at, baseSize);
    }

    /** Moves the cursor n bytes on, within one block or to the start of the next. */
    method Advance(npos: nat, n: nat)
      requires AtCursor() && cur != null && npos == position - Span(at, baseSize)
      requires npos + n <= baseSize
      modifies this`position, this`cur, this`at
      ensures AtCursor() && position == old(position) + n
      ensures npos + n == baseSize ==> position == Span(at, baseSize)
    {
      SpanMono(at + 1, |nodes|, baseSize);
      position := position + n;
      if cur.bytes.Length == npos + n {
        cur := cur.next;
        at := at + 1;
        SpanMono(at, |nodes|, baseSize);
      }
    }

    /** A block that ends before the capacity is followed by another. */
    lemma NextBlock(k: nat)
      requires Chain() && k < |nodes| && Span(k, baseSize) + baseSize < capacity
      ensures k + 1 < |nodes| && nodes[k].next == nodes[k + 1]
    {
      assert Span(k + 1, baseSize) < Span(|nodes|, baseSize);
    }

    /** Where in the cursor's block the position is, and how many bytes the block has from there. */
    method InBlock() returns (npos: nat, ncap: nat)
      requires AtCursor() && cur != null
      ensures npos == position - Span(at, baseSize) && npos + ncap == baseSize
    {
      BlockIs(position, at, baseSize);
      npos := position % baseSize;
      ncap := cur.bytes.Length - npos;
    }

    /** One memcpy of write: n bytes of buf, from bpos on, go into block k at offset o. */
    method PutInBlock(ghost k: nat, bytes: array<Byte>, o: nat, buf: seq<Byte>, bpos: nat, n: nat)
      requires Chain() && Stored() && k < |nodes| && bytes == nodes[k].bytes && o + n <= baseSize
      requires bpos + n <= |buf| && Span(k, baseSize) + o + n <= |contents|
      modifies bytes, this`contents
      ensures Chain() && Stored()
      ensures contents == Put(old(contents), Span(k, baseSize) + o, buf, bpos, n)
    {
      CopyIn(bytes, o, buf, bpos, n);
      contents := Put(contents, Span(k, baseSize) + o, buf, bpos, n);
      forall i, j | 0 <= i < |nodes| && 0 <= j < baseSize
        ensures nodes[i].bytes[j] == Peek(contents, Span(i, baseSize) + j)
      {
        if i < k { SpanMono(i, k, baseSize); } else { SpanMono(k, i, baseSize); }
      }
    }

    /** One memcpy of write, with the cursor move that follows it. */
    method PutHere(npos: nat, buf: seq<Byte>, bpos: nat, n: nat)
      requires AtCursor() && Stored() && cur != null && npos == position - Span(at, baseSize)
      requires npos + n <= baseSize && bpos + n <= |buf|
      modifies this`position, this`cur, this`at, this`contents, cur.bytes
      ensures AtCursor() && Stored() && position == old(position) + n <= capacity
      ensures npos + n == baseSize ==> position == Span(at, baseSize)
      ensures contents == Put(old(contents), old(position), buf, bpos, n)
    {
      SpanMono(at, |nodes|, baseSize);
      PutInBlock(at, cur.bytes, npos, buf, bpos, n);
      Advance(npos, n);
    }

    /** PutHere as a step of write's loop: the first bpos + n bytes are in place after it. */
    method PutNext(npos: nat, buf: seq<Byte>, bpos: nat, n: nat, ghost was: seq<Byte>)
      requires AtCursor() && Stored() && cur != null && npos == position - Span(at, baseSize)
      requires npos + n <= baseSize && bpos + n <= |buf| && bpos <= position
      requires Over(contents, was, position - bpos, buf, bpos)
      modifies this`position, this`cur, this`at, this`contents, cur.bytes
      ensures AtCursor() && Stored() && position == old(position) + n <= capacity
      ensures npos + n == baseSize ==> position == Span(at, baseSize)
      ensures Over(contents, was, position - bpos - n, buf, bpos + n)
    {
      SpanMono(at, |nodes|, baseSize);
      OverMore(contents, was, position - bpos, buf, bpos, n);
      PutHere(npos, buf, bpos, n);
    }

    /** write's loop, once the capacity is there. */
    method WriteLoop(buf: seq<Byte>)
      requires AtCursor() && Stored() && |buf| > 0 && position + |buf| <= capacity
      modifies this`position, this`cur, this`at, this`contents, Repr - {this}
      ensures AtCursor() && Stored() && position == old(position) + |buf|
      ensures contents == Splice(old(contents), old(position), buf)
    {
      var npos, ncap := InBlock();
      var bpos, left := 0, |buf|;
      while left > 0
        invariant 0 <= bpos && 0 <= left && bpos + left == |buf|
        invariant AtCursor() && Stored() && position == old(position) + bpos && position + left <= capacity
        invariant left > 0 ==> npos == position - Span(at, baseSize) && ncap == baseSize - npos
        invariant Over(contents, old(contents), old(position), buf, bpos)
      {
        if ncap >= left {
          PutNext(npos, buf, bpos, left, old(contents));
          bpos := bpos + left;
          left := 0;
        } else {
          PutNext(npos, buf, bpos, ncap, old(contents));
          bpos := bpos + ncap;
          left := left - ncap;
          ncap := cur.bytes.Length;
          npos := 0;
        }
      }
      OverIsSplice(contents, old(contents), old(position), buf);
    }

    /** Links one new block after the last. */
    method AppendOne(last: Node) returns (node: Node)
      requires Chain() && Stored() && last == nodes[|nodes| - 1]
      modifies this`capacity, this`nodes, this`contents, this`Repr, last`next
      ensures Chain() && Stored() && nodes == old(nodes) + [node] && fresh(Repr - old(Repr)) && old(Repr) <= Repr
      ensures old(contents) <= contents
      ensures fresh(node)
    {
      node := new Node(baseSize);
      last.next := node;
      capacity := capacity + baseSize;
      contents := contents + node.bytes[..];
      nodes := nodes + [node];
      Repr := Repr + {node, node.bytes};
      SpansBelow(|nodes| - 1, baseSize);
    }

    /** addCapacity's second half: grows the list after its last node; the first new node. */
    method Append(last: Node, count: nat) returns (first: Node)
      requires Chain() && Stored() && last == nodes[|nodes| - 1] && count > 0
      modifies this`capacity, this`nodes, this`contents, this`Repr, last`next
      ensures Chain() && Stored() && |nodes| == |old(nodes)| + count && old(nodes) <= nodes
      ensures fresh(Repr - old(Repr)) && old(Repr) <= Repr
      ensures old(contents) <= contents
      ensures first == nodes[|old(nodes)|]
    {
      first := AppendOne(last);
      var tmp := first;
      var i := 1;
      while i < count
        invariant 1 <= i <= count && Chain() && Stored()
        invariant |nodes| == |old(nodes)| + i && old(nodes) <= nodes
        invariant fresh(Repr - old(Repr)) && old(Repr) <= Repr
        invariant old(contents) <= contents
        invariant tmp == nodes[|nodes| - 1] && first == nodes[|old(nodes)|] && fresh(tmp)
      {
        tmp := AppendOne(tmp);
        i := i + 1;
      }
    }

    /** The walk to the last node. */
    method LastNode() returns (tmp: Node)
      requires Chain()
      ensures tmp == nodes[|nodes| - 1]
    {
      tmp := root;
      ghost var k := 0;
      while tmp.next != null
        invariant 0 <= k < |nodes| && tmp == nodes[k]
        invariant k < |nodes| - 1 ==> tmp.next == nodes[k + 1]
        decreases |nodes| - k
      {
        tmp := tmp.next;
        k := k + 1;
      }
    }

    /** Appends count blocks; a cursor that was null at capacity moves to the first of them. */
    method Grow(count: nat)
      requires Valid() && count > 0
      modifies this`capacity, this`nodes, this`contents, this`Repr, this`cur, Repr - {this}
      ensures Valid() && fresh(Repr - old(Repr)) && old(Repr) <= Repr
      ensures capacity == old(capacity) + Span(count, baseSize) && old(contents) <= contents
    {
      var atEnd := capacity == position;
      var last := LastNode();
      var first := Append(last, count);
      if atEnd { cur := first; }
      SpanAdd(|old(nodes)|, count, baseSize);
      SpanMono(0, count, baseSize);
    }

    /** addCapacity: appends as few blocks as make n more bytes fit after the position. */
    method AddCapacity(n: nat)
      requires Valid()
      modifies this`capacity, this`nodes, this`contents, this`Repr, this`cur, Repr - {this}
      ensures Valid() && fresh(Repr - old(Repr)) && old(Repr) <= Repr
      ensures capacity == old(capacity) + FlatBuffer.Growth(old(capacity - position), baseSize, n)
      ensures old(contents) <= contents
    {
      if n == 0 { return; }
      var oldCap := capacity - position;
      if oldCap >= n { return; }
      var count := FlatBuffer.CeilDiv(n - oldCap, baseSize);
      FlatBuffer.CeilCovers(n - oldCap, baseSize);
      SpanIs(count, baseSize);
      Grow(count);
    }

    /** What write does after its loop. */
    method RaiseSize()
      requires AtCursor() && Stored() && size <= capacity && position <= capacity
      modifies this`size
      ensures Valid() && size == FlatBuffer.Max(old(size), position)
    {
      if position > size { size := position; }
    }

    /** write. */
    method Write(buf: seq<Byte>)
      requires Valid()
      modifies Repr
      ensures Valid() && fresh(Repr - old(Repr)) && old(Repr) <= Repr
      ensures capacity == old(capacity) + FlatBuffer.Growth(old(capacity - position), baseSize, |buf|)
      ensures View() == FlatBuffer.Write(old(View()), buf, contents[old(capacity)..])
      ensures bigEndian == old(bigEndian)
    {
      if |buf| == 0 {
        FlatBuffer.EmptyWrite(View());
        return;
      }
      AddCapacity(|buf|);
      ghost var grown := contents;
      WriteLoop(buf);
      RaiseSize();
      FlatBuffer.GrowThenWrite(old(View()), grown, buf, View());
    }

    /** One memcpy of read, with the cursor move that follows it: out grows to bpos + n bytes. */
    method TakeHere(npos: nat, out: seq<Byte>, n: nat, ghost from: nat) returns (more: seq<Byte>)
      requires AtCursor() && Stored() && cur != null && npos == position - Span(at, baseSize)
      requires npos + n <= baseSize && from + |out| == position && Copied(out, contents, from)
      modifies this`position, this`cur, this`at
      ensures AtCursor() && Stored() && position == old(position) + n <= capacity
      ensures npos + n == baseSize ==> position == Span(at, baseSize)
      ensures Copied(more, contents, from) && |more| == |out| + n
    {
      SpanMono(at, |nodes|, baseSize);
      more := out + cur.bytes[npos..npos + n];
      Advance(npos, n);
    }

    /** read's loop, once the check has passed. */
    method ReadLoop(n: nat) returns (out: seq<Byte>)
      requires AtCursor() && Stored() && cur != null && position + n <= capacity
      modifies this`position, this`cur, this`at
      ensures AtCursor() && Stored() && position == old(position) + n
      ensures out == contents[old(position)..old(position) + n]
    {
      var npos, ncap := InBlock();
      var left := n;
      out := [];
      while left > 0
        invariant 0 <= left && |out| + left == n
        invariant AtCursor() && Stored() && position == old(position) + |out| && position + left <= capacity
        invariant left > 0 ==> npos == position - Span(at, baseSize) && ncap == baseSize - npos
        invariant Copied(out, contents, old(position))
      {
        if ncap >= left {
          out := TakeHere(npos, out, left, old(position));
          left := 0;
        } else {
          out := TakeHere(npos, out, ncap, old(position));
          left := left - ncap;
          ncap := cur.bytes.Length;
          npos := 0;
        }
      }
    }

    /** read: None is the out_of_range exception, which leaves everything as it was. */
    method Read(n: nat) returns (out: Option<seq<Byte>>)
      requires Valid()
      requires n > 0 || position < capacity
      modifies this`position, this`cur, this`at
      ensures Valid()
      ensures if n > old(FlatBuffer.ReadSize(View())) then out == None && View() == old(View())
              else (View(), out) == (FlatBuffer.Read(old(View()), n).0, Some(FlatBuffer.Read(old(View()), n).1))
    {
      if n > size - position { return None; }
      var x := ReadLoop(n);
      return Some(x);
    }

    /** One append of toString. */
    method Joined(out: seq<Byte>, node: Node, ghost k: nat, npos: nat, n: nat) returns (more: seq<Byte>)
      requires Valid() && k < |nodes| && node == nodes[k] && npos + n <= baseSize
      requires Copied(out, contents, position) && Span(k, baseSize) + npos == position + |out|
      ensures |more| == |out| + n && Copied(more, contents, position)
    {
      BlockBytes(k, npos, n);
      more := out + node.bytes[npos..npos + n];
    }

    /** toString: a read of everything readable that leaves the cursor where it is. */
    method ToString() returns (out: seq<Byte>)
      requires Valid()
      ensures out == FlatBuffer.Data(View())[position..]
    {
      var left: nat := size - position;
      out := [];
      if left == 0 { return; }
      var node: Node := cur;
      var npos, ncap := InBlock();
      ghost var k: nat := at;
      while left > 0
        invariant 0 <= left && |out| + left == size - position && Copied(out, contents, position)
        invariant k < |nodes| && node == nodes[k] && npos + ncap == baseSize && 0 <= npos < baseSize
        invariant left > 0 ==> Span(k, baseSize) + npos == position + |out|
      {
        if ncap >= left {
          out := Joined(out, node, k, npos, left);
          left := 0;
        } else {
          out := Joined(out, node, k, npos, ncap);
          left := left - ncap;
          NextBlock(k);
          node := node.next;
          k := k + 1;
          ncap := node.bytes.Length;
          npos := 0;
        }
      }
    }

    /** The walk of setPosition: the block v lies in, v itself counting as inside the block it ends. */
    method Locate(v: nat) returns (node: Node?, ghost k: nat)
      requires Chain() && v <= capacity
      ensures k <= |nodes| && (k == |nodes| <==> v == capacity)
      ensures Span(k, baseSize) <= v < Span(k, baseSize) + baseSize
      ensures node == if k < |nodes| then nodes[k] else null
    {
      var cur: Node, left := root, v;
      k := 0;
      while left > cur.bytes.Length
        invariant 0 <= k < |nodes| && cur == nodes[k] && left >= 0 && Span(k, baseSize) + left == v
        decreases left
      {
        NextBlock(k);
        left := left - cur.bytes.Length;
        cur := cur.next;
        k := k + 1;
      }
      node := cur;
      if left == cur.bytes.Length {
        node := cur.next;
        k := k + 1;
      }
      if k < |nodes| { SpanMono(k, |nodes|, baseSize); }
    }

    /** setPosition: false is the out_of_range exception. */
    method SetPosition(v: nat) returns (ok: bool)
      requires Valid()
      modifies this`position, this`size, this`cur, this`at
      ensures Valid() && ok == (v <= capacity)
      ensures View() == if ok then FlatBuffer.Seek(old(View()), v) else old(View())
    {
      if v > capacity { return false; }
      var node, k := Locate(v);
      position, cur, at := v, node, k;
      if position > size { size := position; }
      return true;
    }

    /** clear: back to the one root block. */
    method Clear()
      requires Valid()
      modifies this`position, this`size, this`capacity, this`cur, this`at, this`nodes, this`contents, root
      ensures Valid() && capacity == baseSize <= old(capacity)
      ensures View() == FlatBuffer.Clear(old(View()), baseSize)
    {
      position, size := 0, 0;
      capacity := baseSize;
      cur := root;
      root.next := null;
      SpanMono(1, |nodes|, baseSize);
      at := 0;
      nodes := [root];
      contents := contents[..baseSize];
    }

    /** Block k holds its stretch of the flat contents ... */
    lemma BlockBytes(k: nat, o: nat, n: nat)
      requires Chain() && Stored() && k < |nodes| && o + n <= baseSize
      ensures Copied(nodes[k].bytes[o..o + n], contents, Span(k, baseSize) + o)
    {
      SpanMono(k, |nodes|, baseSize);
      var held, p := nodes[k].bytes[o..o + n], Span(k, baseSize) + o;
      forall i | 0 <= i < n ensures held[i] == contents[p + i] {
        assert nodes[k].bytes[o + i] == Peek(contents, Span(k, baseSize) + (o + i));
      }
    }

    /** ... so a piece inside it holds those flat bytes. */
    lemma BlockHolds(k: nat, o: nat, n: nat, p: nat)
      requires Chain() && Stored() && k < |nodes| && o + n <= baseSize && p == Span(k, baseSize) + o
      ensures p + n <= |contents| && Hold([IoVec(nodes[k].bytes, o, n)], contents[p..p + n])
    {
      BlockBytes(k, o, n);
      HoldOne(IoVec(nodes[k].bytes, o, n), contents[p..p + n]);
    }

    /** The pieces hold exactly the flat bytes they cover, in order. */
    lemma {:induction false} PiecesHold(k: nat, o: nat, n: nat, p: nat)
      requires Chain() && Stored() && k <= |nodes| && o < baseSize
      requires p == Span(k, baseSize) + o && p + n <= |contents|
      ensures Hold(Pieces(nodes, baseSize, k, o, n), contents[p..p + n])
      decreases n
    {
      if n > 0 {
        var m := baseSize - o;
        if n <= m {
          BlockHolds(k, o, n, p);
        } else {
          BlockHolds(k, o, m, p);
          PiecesHold(k + 1, 0, n - m, p + m);
          HoldMore(IoVec(nodes[k].bytes, o, m), contents, p, m, Pieces(nodes, baseSize, k + 1, 0, n - m), n);
        }
      }
    }

    /** Piece i lies in the i-th block from k on: no two pieces share an array. */
    lemma {:induction false} PieceBlock(k: nat, o: nat, n: nat, i: nat)
      requires Chain() && k <= |nodes| && o < baseSize && i < |Pieces(nodes, baseSize, k, o, n)|
      ensures k + i < |nodes| && Pieces(nodes, baseSize, k, o, n)[i].base == nodes[k + i].bytes
      decreases i
    {
      if i > 0 {
        PieceBlock(k + 1, 0, n - (baseSize - o), i - 1);
      }
    }

    /** The loop shared by the two getReadBuffers and getWriteBuffers. */
    method Collect(start: Node?, ghost k: nat, o: nat, n: nat) returns (vs: seq<IoVec>)
      requires Chain() && k <= |nodes| && o < baseSize && Span(k, baseSize) + o + n <= capacity && n > 0
      requires start == if k < |nodes| then nodes[k] else null
      ensures vs == Pieces(nodes, baseSize, k, o, n)
    {
      SpanMono(k, |nodes|, baseSize);
      ghost var i: nat := k;
      var cur: Node, npos, ncap, len := start, o, start.bytes.Length - o, n;
      vs := [];
      while len > 0
        invariant 0 <= len && 0 <= npos < baseSize && i < |nodes| && cur == nodes[i]
        invariant npos + ncap == baseSize && Span(i, baseSize) + npos + len <= capacity
        invariant vs + Pieces(nodes, baseSize, i, npos, len) == Pieces(nodes, baseSize, k, o, n)
      {
        if ncap >= len {
          vs := vs + [IoVec(cur.bytes, npos, len)];
          npos, len := 0, 0;
          ncap := baseSize;
        } else {
          vs := vs + [IoVec(cur.bytes, npos, ncap)];
          len := len - ncap;
          NextBlock(i);
          cur := cur.next;
          i := i + 1;
          ncap := cur.bytes.Length;
          npos := 0;
        }
      }
    }

    /** The pieces are those of the list, from block k on. */
    lemma PiecesApart(k: nat, o: nat, n: nat)
      requires Chain() && k <= |nodes| && o < baseSize
      ensures forall v :: v in Pieces(nodes, baseSize, k, o, n) ==> v.base in Repr
      ensures Apart(Pieces(nodes, baseSize, k, o, n))
    {
      forall i | 0 <= i < |Pieces(nodes, baseSize, k, o, n)|
        ensures k + i < |nodes| && Pieces(nodes, baseSize, k, o, n)[i].base == nodes[k + i].bytes
      {
        PieceBlock(k, o, n, i);
      }
    }

    /** Pieces for n bytes from the cursor on, all of them there. */
    method FromCursor(n: nat) returns (vs: seq<IoVec>)
      requires Valid() && n > 0 && position + n <= capacity
      ensures vs == Pieces(nodes, baseSize, at, position - Span(at, baseSize), n)
      ensures Hold(vs, contents[position..position + n]) && Apart(vs)
      ensures forall v :: v in vs ==> v.base in Repr
    {
      var npos, _ := InBlock();
      vs := Collect(cur, at, npos, n);
      PiecesHold(at, npos, n, position);
      PiecesApart(at, npos, n);
    }

    /** getReadBuffers: the next min(len, readable) bytes as pieces; the cursor stays. */
    method GetReadBuffers(len: nat) returns (vs: seq<IoVec>, n: nat)
      requires Valid()
      ensures n == FlatBuffer.Min(len, FlatBuffer.ReadSize(View()))
      ensures Hold(vs, View().bytes[position..position + n]) && Apart(vs)
    {
      n := if len > size - position then size - position else len;
      if n == 0 { return [], 0; }
      vs := FromCursor(n);
    }

    /** Steps count blocks from the root. */
    method Skip(count: nat) returns (cur: Node)
      requires Chain() && count < |nodes|
      ensures cur == nodes[count]
    {
      cur := root;
      var left := count;
      while left > 0
        invariant 0 <= left <= count && cur == nodes[count - left]
      {
        assert nodes[count - left].next == nodes[count - left + 1];
        cur := cur.next;
        left := left - 1;
      }
    }

    /**
     getReadBuffers at a given position: as many bytes as are readable at the CURSOR, but taken from pos.
     They must not run past the blocks; from a pos at or before the cursor they lie inside the data.
     */
    method GetReadBuffersAt(len: nat, pos: nat) returns (vs: seq<IoVec>, n: nat)
      requires Valid() && pos + FlatBuffer.Min(len, FlatBuffer.ReadSize(View())) <= capacity
      ensures n == FlatBuffer.Min(len, FlatBuffer.ReadSize(View()))
      ensures Hold(vs, View().bytes[pos..pos + n]) && Apart(vs)
      ensures pos <= position ==> pos + n <= size
    {
      n := if len > size - position then size - position else len;
      if n == 0 { return [], 0; }
      ghost var k := BlockOf(pos);
      BlockIs(pos, k, baseSize);
      var npos, count := pos % baseSize, pos / baseSize;
      var start := Skip(count);
      vs := Collect(start, k, npos, n);
      PiecesHold(k, npos, n, pos);
      PiecesApart(k, npos, n);
    }

    /** getWriteBuffers: pieces for len bytes from the position on; nothing else changes. */
    method GetWriteBuffers(len: nat) returns (vs: seq<IoVec>)
      requires Valid()
      modifies this`capacity, this`nodes, this`contents, this`Repr, this`cur, Repr - {this}
      ensures Valid() && fresh(Repr - old(Repr)) && old(Repr) <= Repr
      ensures capacity == old(capacity) + FlatBuffer.Growth(old(capacity - position), baseSize, len)
      ensures old(contents) <= contents && position + len <= capacity
      ensures Hold(vs, contents[position..position + len]) && Apart(vs)
      ensures vs == Pieces(nodes, baseSize, at, position - Span(at, baseSize), len)
      ensures forall v :: v in vs ==> v.base in Repr
    {
      if len == 0 { return []; }
      AddCapacity(len);
      vs := FromCursor(len);
    }

    lemma FirstPiece(k: nat, o: nat, n: nat)
      requires k < |nodes| && o < baseSize && n > 0
      ensures var m := FlatBuffer.Min(n, baseSize - o);
        |Pieces(nodes, baseSize, k, o, n)| > 0 && Pieces(nodes, baseSize, k, o, n)[0] == IoVec(nodes[k].bytes, o, m)
        && Pieces(nodes, baseSize, k, o, n)[1..] == Pieces(nodes, baseSize, k + 1, 0, n - m)
    {
    }

    /** One piece of a scattering read: the bytes of x from `done` on, as many as fit. */
    method FillPiece(v: IoVec, ghost k: nat, ghost o: nat, x: seq<Byte>, done: nat, ghost was: seq<Byte>)
      requires Chain() && Stored() && k < |nodes| && v.base == nodes[k].bytes && v.offset == o
      requires o + v.len <= baseSize && done <= |x| && Span(k, baseSize) + o == position + done
      requires Over(contents, was, position, x, done) && position + |x| <= |was|
      modifies this`contents, v.base
      ensures Chain() && Stored()
      ensures Over(contents, was, position, x, FlatBuffer.Min(|x|, done + v.len))
    {
      var n := if v.len <= |x| - done then v.len else |x| - done;
      OverMore(contents, was, position, x, done, n);
      PutInBlock(k, v.base, v.offset, x, done, n);
    }

    /** What a scattering read does with pieces from getWriteBuffers: x fills them from the front. */
    method Fill(vs: seq<IoVec>, x: seq<Byte>, ghost len: nat)
      requires Valid() && position + len <= capacity && |x| <= len
      requires vs == Pieces(nodes, baseSize, at, position - Span(at, baseSize), len)
      modifies this`contents, Repr - {this}
      ensures Valid() && contents == Splice(old(contents), position, x)
    {
      var rest, done := vs, 0;
      ghost var k, o, left := at, position - Span(at, baseSize), len;
      while done < |x|
        invariant 0 <= k <= |nodes| && 0 <= o < baseSize && 0 <= left
        invariant Chain() && Stored() && 0 <= done <= |x| <= done + left
        invariant rest == Pieces(nodes, baseSize, k, o, left)
        invariant done < |x| ==> Span(k, baseSize) + o == position + done
        invariant position + done + left <= capacity
        invariant Over(contents, old(contents), position, x, done)
        decreases |x| - done
      {
        if k == |nodes| { assert false; }
        FirstPiece(k, o, left);
        FillPiece(rest[0], k, o, x, done, old(contents));
        ghost var m := rest[0].len;
        done := if rest[0].len <= |x| - done then done + rest[0].len else |x|;
        rest := rest[1..];
        k, o, left := k + 1, 0, left - m;
      }
      OverIsSplice(contents, old(contents), position, x);
    }

    /** The block that holds position p. */
    ghost function BlockOf(p: nat): (k: nat)
      requires Chain() && p < capacity
      reads this, Repr
      ensures k < |nodes| && Span(k, baseSize) <= p < Span(k, baseSize) + baseSize
    {
      BlockFor(p, |nodes|, baseSize)
    }
  }

  /** The block among the first n that holds p. */
  ghost function BlockFor(p: nat, n: nat, b: nat): (k: nat)
    requires p < Span(n, b)
    ensures k < n && Span(k, b) <= p < Span(k, b) + b
  {
    if Span(n - 1, b) <= p then n - 1 else BlockFor(p, n - 1, b)
  }

  /** No two pieces share an array. */
  ghost predicate Apart(vs: seq<IoVec>) {
    forall i, j :: 0 <= i < j < |vs| ==> vs[i].base != vs[j].base
  }

  /** The pieces that cover n bytes from offset o of block k on. */
  ghost function Pieces(nodes: seq<Node>, b: nat, k: nat, o: nat, n: nat): (vs: seq<IoVec>)
    requires k <= |nodes| && o < b
    decreases n
  {
    if n == 0 || k == |nodes| then []
    else if n <= b - o then [IoVec(nodes[k].bytes, o, n)]
    else [IoVec(nodes[k].bytes, o, b - o)] + Pieces(nodes, b, k + 1, 0, n - (b - o))
  }

  /** Every piece lies inside its array. */
  ghost predicate InBounds(vs: seq<IoVec>) {
    forall v :: v in vs ==> v.offset + v.len <= v.base.Length
  }

  function Total(vs: seq<IoVec>): nat {
    if vs == [] then 0 else vs[0].len + Total(vs[1..])
  }

  /** What the pieces hold, end to end: what writev sends. */
  ghost function Gather(vs: seq<IoVec>): seq<Byte>
    requires InBounds(vs)
    reads set v | v in vs :: v.base
  {
    if vs == [] then [] else vs[0].base[vs[0].offset..vs[0].offset + vs[0].len] + Gather(vs[1..])
  }

  /** The pieces lie inside their arrays and hold exactly s. */
  ghost predicate Hold(vs: seq<IoVec>, s: seq<Byte>)
    reads set v | v in vs :: v.base
  {
    InBounds(vs) && Total(vs) == |s| && Gather(vs) == s
  }

  lemma HoldOne(v: IoVec, s: seq<Byte>)
    requires v.offset + v.len <= v.base.Length && v.base[v.offset..v.offset + v.len] == s
    ensures Hold([v], s)
  {
    assert [v][1..] == [];
  }

  lemma HoldMore(v: IoVec, s: seq<Byte>, p: nat, m: nat, vs: seq<IoVec>, n: nat)
    requires m <= n && p + n <= |s| && Hold([v], s[p..p + m]) && Hold(vs, s[p + m..p + n])
    ensures Hold([v] + vs, s[p..p + n])
  {
    assert [v][1..] == [] && Gather([v]) == v.base[v.offset..v.offset + v.len];
    assert ([v] + vs)[1..] == vs;
    SliceMore(s, p, m, n);
  }

  /** memcpy into a block. */
  method CopyIn(a: array<Byte>, o: nat, src: seq<Byte>, from: nat, n: nat)
    requires o + n <= a.Length && from + n <= |src|
    modifies a
    ensures forall i :: 0 <= i < a.Length ==> a[i] == if o <= i < o + n then src[from + (i - o)] else old(a[i])
  {
    forall i | 0 <= i < n {
      a[o + i] := src[from + i];
    }
  }

}
