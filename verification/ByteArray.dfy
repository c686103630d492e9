/** Fixed-size blocks laid end to end, without the heap. */
module Blocks {
  type Byte = x: int | 0 <= x < 256

  // Block counts and offsets, written as recursions on the block size so that proofs
  // about the buffer stay linear. `BlockIsDiv` ties them to / and %.

  /** n blocks of b bytes. */
  function Times(n: nat, b: nat): nat {
    if n == 0 then 0 else Times(n - 1, b) + b
  }

  /** The block that holds flat offset p. */
  function Blk(p: nat, b: nat): nat
    requires b > 0
  {
    if p < b then 0 else Blk(p - b, b) + 1
  }

  /** The offset of p inside its block. */
  function Ofs(p: nat, b: nat): (r: nat)
    requires b > 0
    ensures r < b
  {
    if p < b then p else Ofs(p - b, b)
  }

  lemma {:induction false} BlockIsDiv(p: nat, b: nat)
    requires b > 0
    ensures Blk(p, b) == p / b && Ofs(p, b) == p % b
  {
    if p >= b {
      BlockIsDiv(p - b, b);
      DivUnique(p, b, (p - b) / b + 1, (p - b) % b);
    } else {
      DivUnique(p, b, 0, p);
    }
  }

  lemma {:induction false} TimesIsMul(n: nat, b: nat)
    ensures Times(n, b) == n * b
  {
    if n > 0 { TimesIsMul(n - 1, b); }
  }

  lemma DivUnique(k: int, b: int, i: int, r: int)
    requires b > 0 && k == i * b + r && 0 <= r < b
    ensures k / b == i && k % b == r
  {
    assert k == (k / b) * b + k % b;
    SmallMultiple(k / b - i, b);
  }

  lemma SmallMultiple(x: int, b: int)
    requires b > 0 && -b < x * b < b
    ensures x == 0
  {
  }

  lemma {:induction false} TimesAdd(m: nat, n: nat, b: nat)
    ensures Times(m + n, b) == Times(m, b) + Times(n, b)
  {
    if n > 0 { TimesAdd(m, n - 1, b); }
  }

  lemma TimesMono(m: nat, n: nat, b: nat)
    requires m <= n
    ensures Times(m, b) <= Times(n, b)
  {
    TimesAdd(m, n - m, b);
  }

  /** Flat offset i * b + r is offset r of block i. */
  lemma {:induction false} BlkUnique(i: nat, r: nat, b: nat)
    requires b > 0 && r < b
    ensures Blk(Times(i, b) + r, b) == i && Ofs(Times(i, b) + r, b) == r
  {
    if i > 0 { BlkUnique(i - 1, r, b); }
  }

  lemma {:induction false} BlkSplit(p: nat, b: nat)
    requires b > 0
    ensures p == Times(Blk(p, b), b) + Ofs(p, b)
  {
    if p >= b { BlkSplit(p - b, b); }
  }

  lemma BelowTimes(m: nat, n: nat, b: nat)
    requires Times(m, b) < Times(n, b)
    ensures m < n
  {
    if n <= m { TimesMono(n, m, b); }
  }

  lemma BlkBound(p: nat, b: nat, blocks: nat)
    requires b > 0 && p < Times(blocks, b)
    ensures Blk(p, b) < blocks
  {
    BlkSplit(p, b);
    if Blk(p, b) >= blocks { TimesMono(blocks, Blk(p, b), b); }
  }

  /** Advancing by n from offset r of block c, up to and including the block's end. */
  lemma StepInBlock(p: nat, b: nat, blocks: nat, n: nat, c: nat, r: nat)
    requires b > 0 && p < Times(blocks, b) && c == Blk(p, b) && r == Ofs(p, b) && r + n <= b
    ensures c < blocks && p == Times(c, b) + r && p + n <= Times(blocks, b)
    ensures Blk(p + n, b) == if r + n == b then c + 1 else c
    ensures Ofs(p + n, b) == if r + n == b then 0 else r + n
  {
    BlkSplit(p, b);
    BlkBound(p, b, blocks);
    if r + n < b { BlkUnique(c, r + n, b); } else { BlkUnique(c + 1, 0, b); }
    TimesMono(c + 1, blocks, b);
  }

  /** ceil(more / b) blocks suffice, and one block fewer does not. */
  lemma CeilBlocks(more: nat, b: nat)
    requires b > 0 && more > 0
    ensures var c := (more + b - 1) / b; c >= 1 && Times(c, b) >= more && Times(c, b) - b < more
  {
    var c := (more + b - 1) / b;
    assert more + b - 1 == c * b + (more + b - 1) % b;
    TimesIsMul(c, b);
  }

  /** g is f with buf[from..from + n] written at offset p. */
  ghost predicate Wrote(g: seq<Byte>, f: seq<Byte>, p: nat, buf: seq<Byte>, from: nat, n: nat) {
    && |g| == |f| && p + n <= |f| && from + n <= |buf|
    && forall k :: 0 <= k < |f| ==> g[k] == if p <= k < p + n then buf[from + k - p] else f[k]
  }

  /** Two adjacent writes are one. */
  lemma WroteMore(f: seq<Byte>, g: seq<Byte>, h: seq<Byte>, p: nat, buf: seq<Byte>, k: nat, n: nat)
    requires Wrote(g, f, p, buf, 0, k) && Wrote(h, g, p + k, buf, k, n)
    ensures Wrote(h, f, p, buf, 0, k + n)
  {
  }

  /** What a write to a grown buffer leaves, places and keeps. */
  lemma WroteParts(f: seq<Byte>, grown: seq<Byte>, g: seq<Byte>, p: nat, s: seq<Byte>)
    requires f <= grown && p <= |f| && Wrote(g, grown, p, s, 0, |s|)
    ensures g[..p] == f[..p] && g[p..p + |s|] == s
    ensures forall k :: p + |s| <= k < |f| ==> g[k] == f[k]
  {
  }
}

/**
  sylar/bytearray.cpp: a list of fixed-size blocks with a cached cursor. The class is proved
  to be a flat byte buffer with a position and a size. The source's singly linked list of
  nodes is the sequence `blocks`; its node pointer m_cur is the block number `cur`, with
  |blocks| standing for null.
 */
module ByteArrays {
  import opened Blocks

  /** What ByteArray::read does: deliver bytes, throw, or dereference a null cursor. */
  datatype ReadResult = Bytes(data: seq<Byte>) | OutOfRange | NullCursor

  /** A stretch of one block, as an iovec. */
  datatype Segment = Segment(base: array<Byte>, off: nat, len: nat)

  /** m_position % m_baseSize. */
  method OffsetOf(p: nat, b: nat) returns (r: nat)
    requires b > 0
    ensures r == Ofs(p, b)
  {
    BlockIsDiv(p, b);
    r := p % b;
  }

  /** Copy src[from..from + n] to dst at offset at. */
  method MemCpy(dst: array<Byte>, at: nat, src: seq<Byte>, from: nat, n: nat)
    requires at + n <= dst.Length && from + n <= |src|
    modifies dst
    ensures Wrote(dst[..], old(dst[..]), at, src, from, n)
  {
    var i := 0;
    while i < n
      invariant 0 <= i <= n
      invariant forall k :: 0 <= k < dst.Length ==>
        dst[k] == if at <= k < at + i then src[from + k - at] else old(dst[k])
    {
      dst[at + i] := src[from + i];
      i := i + 1;
    }
  }

  class ByteArray {
    const baseSize: nat
    var position: nat
    var capacity: nat
    var size: nat
    var blocks: seq<array<Byte>>
    var cur: nat
    ghost var flat: seq<Byte>   // all bytes of all blocks

    ghost predicate Shape()
      reads this`blocks, this`capacity
    {
      && baseSize > 0 && |blocks| > 0
      && capacity == Times(|blocks|, baseSize)
      && (forall i :: 0 <= i < |blocks| ==> blocks[i].Length == baseSize)
      && (forall i, j :: 0 <= i < j < |blocks| ==> blocks[i] != blocks[j])
    }

    /** Offset r of block i is byte i * baseSize + r of the flat buffer. */
    ghost predicate CellOk(i: nat, r: nat)
      requires i < |blocks| && r < blocks[i].Length
      reads this`blocks, this`flat, blocks
    {
      Times(i, baseSize) + r < |flat| && blocks[i][r] == flat[Times(i, baseSize) + r]
    }

    /** The flat buffer is the blocks end to end. */
    ghost predicate Stored()
      reads this`blocks, this`flat, this`capacity, blocks
    {
      && |flat| == capacity
      && forall i: nat, r: nat :: i < |blocks| && r < blocks[i].Length ==> CellOk(i, r)
    }

    ghost predicate Valid()
      reads this, blocks
    {
      && Shape() && Stored()
      && position <= size <= capacity
      && cur == Blk(position, baseSize)
    }

    constructor (base: nat)
      requires base > 0
      ensures Valid() && baseSize == base && fresh(blocks)
      ensures position == 0 && size == 0 && capacity == base
    {
      baseSize := base;
      position, capacity, size := 0, base, 0;
      var b := new Byte[base];
      blocks, cur := [b], 0;
      new;
      flat := b[..];
      assert Times(1, base) == Times(0, base) + base;
    }

    /** Offsets of different blocks are different. */
    lemma OtherBlock(i: nat, j: nat, r: nat)
      requires r < baseSize && i != j
      ensures Times(j, baseSize) + r < Times(i, baseSize) || Times(i, baseSize) + baseSize <= Times(j, baseSize) + r
    {
      if j < i { TimesMono(j + 1, i, baseSize); } else { TimesMono(i + 1, j, baseSize); }
    }

    /** After a copy into block i, bring the flat buffer up to date. */
    ghost method PokeFlat(i: nat, off: nat, src: seq<Byte>, from: nat, n: nat)
      requires Shape() && |flat| == capacity && i < |blocks| && off + n <= baseSize && from + n <= |src|
      requires forall j: nat, r: nat :: j < |blocks| && r < blocks[j].Length ==>
        Poked(j, r, i, off, src, from, n)
      modifies this`flat
      ensures Stored() && Wrote(flat, old(flat), Times(i, baseSize) + off, src, from, n)
    {
      var p := Times(i, baseSize) + off;
      TimesMono(i + 1, |blocks|, baseSize);
      flat := flat[..p] + src[from..from + n] + flat[p + n..];
      forall j: nat, r: nat | j < |blocks| && r < blocks[j].Length ensures CellOk(j, r) {
        assert old(Poked(j, r, i, off, src, from, n));
        if j != i { OtherBlock(i, j, r); }
      }
    }

    /** Cell r of block j agrees with the flat buffer, except for the stretch of block i that
        was just copied from src. */
    ghost predicate Poked(j: nat, r: nat, i: nat, off: nat, src: seq<Byte>, from: nat, n: nat)
      requires j < |blocks| && r < blocks[j].Length && from + n <= |src|
      reads this`blocks, this`flat, blocks
    {
      if j == i && off <= r < off + n then
        Times(j, baseSize) + r < |flat| && blocks[j][r] == src[from + r - off]
      else CellOk(j, r)
    }

    /** Write inside one block. */
    method Poke(ghost i: nat, dst: array<Byte>, off: nat, src: seq<Byte>, from: nat, n: nat)
      requires Shape() && Stored()
      requires i < |blocks| && dst == blocks[i] && off + n <= baseSize && from + n <= |src|
      modifies dst, this`flat
      ensures Stored() && Wrote(flat, old(flat), Times(i, baseSize) + off, src, from, n)
    {
      MemCpy(dst, off, src, from, n);
      forall j: nat, r: nat | j < |blocks| && r < blocks[j].Length ensures Poked(j, r, i, off, src, from, n) {
        assert old(CellOk(j, r));
        if j != i { assert blocks[j] != blocks[i]; } else { assert blocks[i][..][r] == blocks[i][r]; }
      }
      PokeFlat(i, off, src, from, n);
    }

    /** Append one block. */
    method AppendBlock()
      requires Shape() && Stored()
      modifies this`capacity, this`blocks, this`flat
      ensures Shape() && Stored()
      ensures |blocks| == |old(blocks)| + 1 && old(blocks) <= blocks && fresh(blocks[|old(blocks)|])
      ensures old(flat) <= flat
    {
      var b := new Byte[baseSize];
      flat := flat + b[..];
      blocks := blocks + [b];
      capacity := capacity + baseSize;
      forall j: nat, r: nat | j < |blocks| && r < blocks[j].Length
        ensures CellOk(j, r)
      {
        if j < |blocks| - 1 {
          assert blocks[j] == old(blocks)[j];
          assert old(CellOk(j, r));
        } else {
          assert b[..][r] == b[r];
        }
      }
    }

    /** ByteArray::addCapacity: room for n bytes after the position, with as few new blocks
        as possible; nothing else changes. */
    method AddCapacity(n: nat)
      requires Valid()
      modifies this`capacity, this`cur, this`blocks, this`flat
      ensures Valid() && old(blocks) <= blocks && old(flat) <= flat
      ensures capacity - position >= n
      ensures capacity == old(capacity) || (capacity - baseSize - position < n && n > old(capacity) - position)
      ensures forall j :: |old(blocks)| <= j < |blocks| ==> fresh(blocks[j])
    {
      if n == 0 { return; }
      var oldCap := capacity - position;
      if oldCap >= n { return; }
      var more := n - oldCap;
      var count := (more + baseSize - 1) / baseSize;
      CeilBlocks(more, baseSize);
      var first := |blocks|;
      BlkUnique(first, 0, baseSize);
      GrowBy(count);
      if oldCap == 0 { cur := first; }
    }

    /** Append `count` blocks. */
    method GrowBy(count: nat)
      requires Shape() && Stored()
      modifies this`capacity, this`blocks, this`flat
      ensures Shape() && Stored()
      ensures old(blocks) <= blocks && old(flat) <= flat
      ensures capacity == old(capacity) + Times(count, baseSize)
      ensures forall j :: |old(blocks)| <= j < |blocks| ==> fresh(blocks[j])
    {
      var k := 0;
      while k < count
        invariant k <= count && Shape() && Stored()
        invariant |blocks| == |old(blocks)| + k && old(blocks) <= blocks && old(flat) <= flat
        invariant capacity == old(capacity) + Times(k, baseSize)
        invariant forall j :: |old(blocks)| <= j < |blocks| ==> fresh(blocks[j])
      {
        AppendBlock();
        k := k + 1;
      }
    }

    /** ByteArray::write. The bytes land at the position, which moves past them; the size
        grows to the position; the other bytes and the number of spare blocks are as
        addCapacity leaves them. */
    method Write(buf: seq<Byte>)
      requires Valid()
      modifies this`position, this`capacity, this`size, this`blocks, this`cur, this`flat, blocks
      ensures Valid() && old(blocks) <= blocks
      ensures Written(old(flat), old(position), old(size), flat, position, size, buf)
      ensures Grew(old(capacity), capacity, baseSize, position)
      ensures forall j :: |old(blocks)| <= j < |blocks| ==> fresh(blocks[j])
    {
      if |buf| == 0 { return; }
      AddCapacity(|buf|);
      ghost var f := flat;
      WriteBlocks(buf);
      if position > size { size := position; }
      WroteParts(old(flat), f, flat, old(position), buf);
    }

    /** One memcpy of ByteArray::write: n bytes into the cursor's block, and on to the next
        block when this one is full. */
    method WriteChunk(buf: seq<Byte>, bpos: nat, npos: nat, n: nat, ghost f: seq<Byte>, ghost p: nat)
      requires Shape() && Stored() && position < capacity
      requires cur == Blk(position, baseSize) && npos == Ofs(position, baseSize)
      requires npos + n <= baseSize && bpos + n <= |buf|
      requires position == p + bpos && Wrote(flat, f, p, buf, 0, bpos)
      modifies this`position, this`cur, this`flat, blocks
      ensures Stored() && position == old(position) + n <= capacity
      ensures cur == Blk(position, baseSize)
      ensures Ofs(position, baseSize) == if npos + n == baseSize then 0 else npos + n
      ensures Wrote(flat, f, p, buf, 0, bpos + n)
    {
      StepInBlock(position, baseSize, |blocks|, n, cur, npos);
      Poke(cur, blocks[cur], npos, buf, bpos, n);
      WroteMore(f, old(flat), flat, p, buf, bpos, n);
      if blocks[cur].Length == npos + n { cur := cur + 1; }
      position := position + n;
    }

    /** The copy loop of ByteArray::write, once there is room. */
    method WriteBlocks(buf: seq<Byte>)
      requires Shape() && Stored() && cur == Blk(position, baseSize)
      requires |buf| > 0 && position + |buf| <= capacity
      modifies this`position, this`cur, this`flat, blocks
      ensures Stored() && cur == Blk(position, baseSize)
      ensures position == old(position) + |buf|
      ensures Wrote(flat, old(flat), old(position), buf, 0, |buf|)
    {
      BlkBound(position, baseSize, |blocks|);
      var rem: nat := |buf|;
      var npos := OffsetOf(position, baseSize);
      var ncap := blocks[cur].Length - npos;
      var bpos: nat := 0;
      while rem > 0
        invariant Stored()
        invariant bpos + rem == |buf| && position == old(position) + bpos
        invariant cur == Blk(position, baseSize)
        invariant rem > 0 ==> npos == Ofs(position, baseSize) && ncap == baseSize - npos
        invariant Wrote(flat, old(flat), old(position), buf, 0, bpos)
      {
        if ncap >= rem {
          WriteChunk(buf, bpos, npos, rem, old(flat), old(position));
          bpos := bpos + rem;
          rem := 0;
        } else {
          WriteChunk(buf, bpos, npos, ncap, old(flat), old(position));
          bpos := bpos + ncap;
          rem := rem - ncap;
          BlkBound(position, baseSize, |blocks|);
          ncap := blocks[cur].Length;
          npos := 0;
        }
      }
    }

    /** ByteArray::read. It throws when fewer than n bytes are readable; at the very end of
        the buffer it dereferences the null cursor, even for n = 0; otherwise it delivers the
        next n bytes and moves past them. */
    method Read(n: nat) returns (r: ReadResult)
      requires Valid()
      modifies this`position, this`cur
      ensures Valid()
      ensures r == ReadSpec(old(position), size, flat, n)
      ensures position == old(position) + if r.Bytes? then n else 0
    {
      if n > size - position { return OutOfRange; }
      CursorNull(position, baseSize, |blocks|);
      if cur == |blocks| { return NullCursor; }
      var out := ReadBlocks(n);
      r := Bytes(out);
    }

    /** One memcpy of ByteArray::read. */
    method ReadChunk(npos: nat, n: nat) returns (out: seq<Byte>)
      requires Valid() && position < capacity && position + n <= size
      requires npos == Ofs(position, baseSize) && npos + n <= baseSize
      modifies this`position, this`cur
      ensures position == old(position) + n && cur == Blk(position, baseSize)
      ensures Ofs(position, baseSize) == if npos + n == baseSize then 0 else npos + n
      ensures out == flat[old(position)..position]
    {
      StepInBlock(position, baseSize, |blocks|, n, cur, npos);
      out := blocks[cur][npos..npos + n];
      forall k | 0 <= k < n ensures out[k] == flat[position + k] { assert CellOk(cur, npos + k); }
      if blocks[cur].Length == npos + n { cur := cur + 1; }
      position := position + n;
    }

    /** The copy loop of ByteArray::read. */
    method ReadBlocks(n: nat) returns (out: seq<Byte>)
      requires Valid() && position + n <= size && cur < |blocks|
      modifies this`position, this`cur
      ensures Valid() && position == old(position) + n && out == flat[old(position)..position]
    {
      var rem: nat := n;
      var npos := OffsetOf(position, baseSize);
      var ncap := blocks[cur].Length - npos;
      ghost var start := position;
      out := [];
      while rem > 0
        invariant |out| + rem == n && position == start + |out|
        invariant cur == Blk(position, baseSize)
        invariant rem > 0 ==> npos == Ofs(position, baseSize) && ncap == baseSize - npos
        invariant out == flat[start..start + |out|]
      {
        if ncap >= rem {
          out := ReadMore(npos, rem, out, start);
          rem := 0;
        } else {
          out := ReadMore(npos, ncap, out, start);
          rem := rem - ncap;
          BlkBound(position, baseSize, |blocks|);
          ncap := blocks[cur].Length;
          npos := 0;
        }
      }
    }

    /** Append one memcpy to what was read since `start`. */
    method ReadMore(npos: nat, n: nat, out: seq<Byte>, ghost start: nat) returns (all: seq<Byte>)
      requires Valid() && position < capacity && position + n <= size
      requires npos == Ofs(position, baseSize) && npos + n <= baseSize
      requires position == start + |out| && out == flat[start..position]
      modifies this`position, this`cur
      ensures position == old(position) + n && cur == Blk(position, baseSize)
      ensures Ofs(position, baseSize) == if npos + n == baseSize then 0 else npos + n
      ensures |all| == |out| + n && all == flat[start..position]
    {
      var piece := ReadChunk(npos, n);
      ReadOn(flat, start, out, piece);
      all := out + piece;
    }

    lemma ReadOn(f: seq<Byte>, p: nat, out: seq<Byte>, piece: seq<Byte>)
      requires p + |out| + |piece| <= |f|
      requires out == f[p..p + |out|] && piece == f[p + |out|..p + |out| + |piece|]
      ensures out + piece == f[p..p + |out + piece|]
    {
      Joined(f, p, |out|, |out| + |piece|);
    }

    /** The walk from the first block to the one that holds offset v. */
    method FindBlock(v: nat) returns (c: nat)
      requires Shape() && v <= capacity
      ensures c == Blk(v, baseSize)
    {
      c := 0;
      var left: nat := v;
      while left > blocks[c].Length
        invariant c < |blocks| && v == Times(c, baseSize) + left
      {
        left := left - blocks[c].Length;
        c := c + 1;
        BelowTimes(c, |blocks|, baseSize);
      }
      if left == blocks[c].Length {
        c := c + 1;
        BlkUnique(c, 0, baseSize);
      } else {
        BlkUnique(c, left, baseSize);
      }
    }

    /** ByteArray::setPosition: throws beyond the capacity; otherwise moves the position,
        extends the size to it and finds its block. */
    method SetPosition(v: nat) returns (ok: bool)
      requires Valid()
      modifies this`position, this`size, this`cur
      ensures Valid() && ok == (v <= capacity)
      ensures ok ==> position == v && size == Max(old(size), v)
      ensures !ok ==> position == old(position) && size == old(size) && cur == old(cur)
    {
      ok := v <= capacity;
      if ok {
        position := v;
        if position > size { size := position; }
        cur := FindBlock(v);
      }
    }

    /** ByteArray::clear keeps the first block only. */
    method Clear()
      requires Valid()
      modifies this
      ensures Valid() && position == 0 && size == 0 && capacity == baseSize
      ensures blocks == old(blocks)[..1] && flat == old(flat)[..baseSize]
    {
      position, size := 0, 0;
      capacity := baseSize;
      cur := 0;
      blocks := blocks[..1];
      TimesMono(1, old(|blocks|), baseSize);
      flat := flat[..baseSize];
      forall r: nat | r < baseSize ensures CellOk(0, r) { assert old(CellOk(0, r)); }
      assert Times(1, baseSize) == Times(0, baseSize) + baseSize;
    }

    // ---------------------------------------------------------------- iovec views

    /** Segment g is the stretch of one block that starts at flat offset p. */
    ghost predicate SegmentAt(g: Segment, p: nat)
      requires baseSize > 0
      reads this`blocks
    {
      && g.len > 0 && Blk(p, baseSize) < |blocks| && g.base == blocks[Blk(p, baseSize)]
      && g.off == Ofs(p, baseSize) && g.off + g.len <= baseSize
    }

    /** The segments follow one another from offset p and cover exactly n bytes; being
        consecutive stretches of the flat buffer, they are disjoint. */
    ghost predicate Covers(segs: seq<Segment>, p: nat, n: nat)
      requires baseSize > 0
      reads this`blocks
    {
      if segs == [] then n == 0
      else SegmentAt(segs[0], p) && segs[0].len <= n && Covers(segs[1..], p + segs[0].len, n - segs[0].len)
    }

    lemma {:induction false} CoversSnoc(segs: seq<Segment>, p: nat, n: nat, g: Segment)
      requires baseSize > 0 && Covers(segs, p, n) && SegmentAt(g, p + n)
      ensures Covers(segs + [g], p, n + g.len)
      decreases |segs|
    {
      if segs == [] {
        assert Covers([], p + g.len, 0);
      } else {
        CoversSnoc(segs[1..], p + segs[0].len, n - segs[0].len, g);
        assert (segs + [g])[1..] == segs[1..] + [g];
      }
    }

    /** The bytes a list of segments holds. */
    ghost function Gather(segs: seq<Segment>): seq<Byte>
      requires forall i :: 0 <= i < |segs| ==> segs[i].off + segs[i].len <= segs[i].base.Length
      reads set i | 0 <= i < |segs| :: segs[i].base
    {
      if segs == [] then [] else segs[0].base[segs[0].off..segs[0].off + segs[0].len] + Gather(segs[1..])
    }

    lemma SegmentBytes(g: Segment, p: nat)
      requires Shape() && Stored() && SegmentAt(g, p)
      ensures p + g.len <= capacity && g.off + g.len <= g.base.Length
      ensures g.base[g.off..g.off + g.len] == flat[p..p + g.len]
    {
      var c := Blk(p, baseSize);
      BlkSplit(p, baseSize);
      assert CellOk(c, g.off + g.len - 1);
      var s := g.base[g.off..g.off + g.len];
      forall k | 0 <= k < g.len ensures s[k] == flat[p..p + g.len][k] {
        assert CellOk(c, g.off + k);
      }
    }

    lemma {:induction false} CoversFit(segs: seq<Segment>, p: nat, n: nat)
      requires Shape() && Covers(segs, p, n)
      ensures forall i :: 0 <= i < |segs| ==> segs[i].off + segs[i].len <= segs[i].base.Length
      decreases |segs|
    {
      if segs != [] {
        CoversFit(segs[1..], p + segs[0].len, n - segs[0].len);
        assert forall i :: 1 <= i < |segs| ==> segs[i] == segs[1..][i - 1];
      }
    }

    /** The segments' bytes, end to end, are the stretch of the flat buffer they cover. */
    lemma {:induction false} GatherCovers(segs: seq<Segment>, p: nat, n: nat)
      requires Shape() && Stored() && Covers(segs, p, n) && p + n <= capacity
      ensures forall i :: 0 <= i < |segs| ==> segs[i].off + segs[i].len <= segs[i].base.Length
      ensures Gather(segs) == flat[p..p + n]
      decreases |segs|
    {
      CoversFit(segs, p, n);
      if segs != [] {
        var g := segs[0];
        SegmentBytes(g, p);
        GatherCovers(segs[1..], p + g.len, n - g.len);
        Joined(flat, p, g.len, n);
      }
    }

    lemma Joined(f: seq<Byte>, p: nat, k: nat, n: nat)
      requires k <= n && p + n <= |f|
      ensures f[p..p + n] == f[p..p + k] + f[p + k..p + n]
    {
    }

    /** The common loop of getReadBuffers and getWriteBuffers. */
    method CutSegments(n: nat) returns (segs: seq<Segment>)
      requires Valid() && n > 0 && position + n <= capacity
      ensures Covers(segs, position, n)
    {
      BlkBound(position, baseSize, |blocks|);
      var npos := OffsetOf(position, baseSize);
      var c := cur;
      var ncap := blocks[c].Length - npos;
      var left: nat := n;
      segs := [];
      while left > 0
        invariant left <= n && Covers(segs, position, n - left)
        invariant left > 0 ==>
          var p := position + (n - left);
          c == Blk(p, baseSize) && c < |blocks| && npos == Ofs(p, baseSize) && ncap == baseSize - npos
      {
        ghost var p := position + (n - left);
        var len := Min(ncap, left);
        var g := Segment(blocks[c], npos, len);
        StepInBlock(p, baseSize, |blocks|, len, c, npos);
        CoversSnoc(segs, position, n - left, g);
        if ncap >= left {
          left := 0;
        } else {
          left := left - ncap;
          c := c + 1;
          BlkBound(p + len, baseSize, |blocks|);
          ncap := blocks[c].Length;
          npos := 0;
        }
        segs := segs + [g];
      }
    }

    /** ByteArray::getReadBuffers: the segments hold exactly the next min(len, readable)
        bytes. */
    method GetReadBuffers(len: nat) returns (segs: seq<Segment>, n: nat)
      requires Valid()
      ensures n == Min(len, size - position) && Covers(segs, position, n)
      ensures forall i :: 0 <= i < |segs| ==> segs[i].off + segs[i].len <= segs[i].base.Length
      ensures Gather(segs) == flat[position..position + n]
    {
      n := if len > size - position then size - position else len;
      if n == 0 {
        segs := [];
      } else {
        segs := CutSegments(n);
      }
      GatherCovers(segs, position, n);
    }

    /** ByteArray::getWriteBuffers: room is made, and the segments cover exactly the next len
        bytes of the buffer. */
    method GetWriteBuffers(len: nat) returns (segs: seq<Segment>)
      requires Valid()
      modifies this`capacity, this`cur, this`blocks, this`flat
      ensures Valid() && old(blocks) <= blocks && old(flat) <= flat
      ensures position + len <= capacity && Covers(segs, position, len)
      ensures capacity == old(capacity) || (capacity - baseSize - position < len && len > old(capacity) - position)
      ensures forall j :: |old(blocks)| <= j < |blocks| ==> fresh(blocks[j])
    {
      if len == 0 { return []; }
      AddCapacity(len);
      segs := CutSegments(len);
    }

    /** Put the next k bytes into one segment. */
    method FillSegment(g: Segment, bytes: seq<Byte>, done: nat, k: nat, ghost f: seq<Byte>)
      requires Shape() && Stored() && SegmentAt(g, position + done) && k <= g.len && done + k <= |bytes|
      requires Wrote(flat, f, position, bytes, 0, done)
      modifies this`flat, g.base
      ensures Stored() && Wrote(flat, f, position, bytes, 0, done + k)
    {
      BlkSplit(position + done, baseSize);
      Poke(Blk(position + done, baseSize), g.base, g.off, bytes, done, k);
      WroteMore(f, old(flat), flat, position, bytes, done, k);
    }

    /** What recv does to the segments it is given: the incoming bytes fill them in order. */
    method Fill(segs: seq<Segment>, n: nat, bytes: seq<Byte>)
      requires Shape() && Stored() && Covers(segs, position, n) && position + n <= capacity && |bytes| <= n
      modifies this`flat, blocks
      ensures Stored() && Wrote(flat, old(flat), position, bytes, 0, |bytes|)
    {
      var done: nat := 0;
      var i := 0;
      while done < |bytes|
        invariant 0 <= i <= |segs| && done <= |bytes| && Stored()
        invariant done < |bytes| ==> Covers(segs[i..], position + done, n - done)
        invariant Wrote(flat, old(flat), position, bytes, 0, done)
      {
        var k := Min(segs[i].len, |bytes| - done);
        assert segs[i..][1..] == segs[i + 1..];
        FillSegment(segs[i], bytes, done, k, old(flat));
        done := done + k;
        i := i + 1;
      }
    }

    /** SocketStream::read: take write buffers for len bytes, let the first |bytes| of them be
        filled, then move the position. The flat effect is that of Write(bytes). */
    method Receive(len: nat, bytes: seq<Byte>)
      requires Valid() && |bytes| <= len
      modifies this`position, this`capacity, this`size, this`blocks, this`cur, this`flat, blocks
      ensures Valid() && old(blocks) <= blocks
      ensures Written(old(flat), old(position), old(size), flat, position, size, bytes)
    {
      var segs := GetWriteBuffers(len);
      ghost var f := flat;
      Fill(segs, len, bytes);
      if |bytes| > 0 {
        var ok := SetPosition(position + |bytes|);
      }
      WroteParts(old(flat), f, flat, old(position), bytes);
    }
  }

  /** The capacity after a write that ends at `position`: as it was if that was enough, and
      otherwise by the fewest blocks more. */
  predicate Grew(was: nat, now: nat, base: nat, position: nat) {
    now == was || (was < position && now < position + base)
  }

  lemma GrewTwice(a: nat, b: nat, c: nat, base: nat, p: nat, q: nat)
    requires Grew(a, b, base, p) && Grew(b, c, base, q) && a <= b && p <= q
    ensures Grew(a, c, base, q)
  {
  }

  /** Whether a write ends exactly at the end of the last block can be told beforehand. */
  lemma EndsAtCapacity(was: nat, now: nat, base: nat, blocks: nat, end: nat)
    requires base > 0 && now == Times(blocks, base) && Grew(was, now, base, end) && was <= now && end <= now
    ensures end == now <==> end % base == 0 && end >= was
  {
    TimesIsMul(blocks, base);
    DivUnique(blocks * base, base, blocks, 0);
    if end % base == 0 && end >= was && end != now {
      SmallMultiple(blocks - end / base, base);
    }
  }

  function Max(a: nat, b: nat): nat { if a > b then a else b }

  /** A flat buffer f with position p and size n becomes g, q, m by writing s: the bytes land
      at p, the position moves past them, the size covers it, and all other bytes of f stay. */
  ghost predicate Written(f: seq<Byte>, p: nat, n: nat, g: seq<Byte>, q: nat, m: nat, s: seq<Byte>) {
    && p <= |f| <= |g| && q == p + |s| <= |g| && m == Max(n, q)
    && g[..p] == f[..p] && g[p..q] == s
    && forall k :: q <= k < |f| ==> g[k] == f[k]
  }

  /** Writing a and then b is writing a + b. */
  lemma WrittenTwice(f: seq<Byte>, p: nat, n: nat, g: seq<Byte>, q: nat, m: nat,
                     h: seq<Byte>, r: nat, k: nat, a: seq<Byte>, b: seq<Byte>)
    requires Written(f, p, n, g, q, m, a) && Written(g, q, m, h, r, k, b)
    ensures Written(f, p, n, h, r, k, a + b)
  {
    assert h[p..q] == g[p..q] by { assert h[..q] == g[..q]; }
    assert h[p..r] == h[p..q] + h[q..r];
    assert h[..p] == h[..q][..p] == g[..q][..p];
  }

  function Min(a: nat, b: nat): nat { if a < b then a else b }

  /** What a read of n bytes at position p of a buffer delivers. */
  function ReadSpec(p: nat, size: nat, flat: seq<Byte>, n: nat): ReadResult
    requires p <= size <= |flat|
  {
    if n > size - p then OutOfRange
    else if p == |flat| then NullCursor
    else Bytes(flat[p..p + n])
  }

  /** The cursor is past the last block exactly at the end of the buffer. */
  lemma CursorNull(p: nat, b: nat, blocks: nat)
    requires b > 0 && p <= Times(blocks, b)
    ensures Blk(p, b) <= blocks && (Blk(p, b) == blocks <==> p == Times(blocks, b))
  {
    if p < Times(blocks, b) { BlkBound(p, b, blocks); } else { BlkUnique(blocks, 0, b); }
  }
}
