/** MemoryPoolAllocator (src/3rdparty/rapidjson/rapidjson.h) and the byte stack that grows on it
    (src/3rdparty/rapidjson/internal/stack.h). */
module Allocator {

  import opened Sequences

  /** A chunk of memory and how much of it has been handed out. */
  datatype Chunk = Chunk(size: nat, data: seq<byte>)

  /** An address: a chunk, numbered in order of creation, and an offset behind its header. */
  datatype Pointer = NullPtr | Ptr(chunk: nat, offset: nat)

  /** A block somebody holds, with the size they asked for. */
  datatype Block = Block(ptr: Pointer, size: nat)

  function Align4(n: nat): (r: nat)
    ensures n <= r < n + 4 && r % 4 == 0
  {
    (n + 3) / 4 * 4
  }

  lemma AlignMonotonic(m: nat, n: nat)
    requires m <= n
    ensures Align4(m) <= Align4(n)
  {
  }

  predicate ChunkOk(c: Chunk) { c.size <= |c.data| && c.size % 4 == 0 }

  predicate InBounds(chunks: seq<Chunk>, b: Block) {
    && b.ptr.Ptr? && b.ptr.chunk < |chunks|
    && b.ptr.offset % 4 == 0 && b.ptr.offset + b.size <= chunks[b.ptr.chunk].size <= |chunks[b.ptr.chunk].data|
  }

  /** The newest chunk has n bytes left. */
  predicate HasRoom(chunks: seq<Chunk>, n: nat) {
    chunks != [] && chunks[|chunks| - 1].size + n <= |chunks[|chunks| - 1].data|
  }

  /** Where the next block of the newest chunk begins. */
  function EndOf(chunks: seq<Chunk>): Pointer
    requires chunks != []
  {
    Ptr(|chunks| - 1, chunks[|chunks| - 1].size)
  }

  /** A block of this place and size ends there. */
  predicate EndsAt(chunks: seq<Chunk>, p: Pointer, size: nat) {
    chunks != [] && p.Ptr? && Ptr(p.chunk, p.offset + size) == EndOf(chunks)
  }

  /** No byte in common. */
  predicate Disjoint(a: Block, b: Block)
    requires a.ptr.Ptr? && b.ptr.Ptr?
  {
    || a.size == 0 || b.size == 0 || a.ptr.chunk != b.ptr.chunk
    || a.ptr.offset + a.size <= b.ptr.offset || b.ptr.offset + b.size <= a.ptr.offset
  }

  function Bytes(chunks: seq<Chunk>, b: Block): seq<byte>
    requires InBounds(chunks, b)
  {
    chunks[b.ptr.chunk].data[b.ptr.offset..b.ptr.offset + b.size]
  }

  /** All blocks in bounds, 4-aligned and pairwise disjoint. */
  ghost predicate Safe(chunks: seq<Chunk>, blocks: seq<Block>) {
    && (forall i | 0 <= i < |chunks| :: ChunkOk(chunks[i]))
    && (forall i | 0 <= i < |blocks| :: InBounds(chunks, blocks[i]))
    && (forall i, j | 0 <= i < j < |blocks| :: Disjoint(blocks[i], blocks[j]))
  }

  /** Memory that grew: no byte handed out before was touched or taken back. */
  ghost predicate Extends(old_: seq<Chunk>, new_: seq<Chunk>) {
    && |old_| <= |new_|
    && forall i | 0 <= i < |old_| :: old_[i].data == new_[i].data && old_[i].size <= new_[i].size
  }

  lemma ExtendsKeeps(old_: seq<Chunk>, new_: seq<Chunk>, b: Block)
    requires Extends(old_, new_) && InBounds(old_, b) && new_[b.ptr.chunk].size <= |new_[b.ptr.chunk].data|
    ensures InBounds(new_, b) && Bytes(new_, b) == Bytes(old_, b)
  {
  }

  /** memcpy into a block. */
  function Store(chunks: seq<Chunk>, b: Block, at: nat, bytes: seq<byte>): (r: seq<Chunk>)
    requires InBounds(chunks, b) && at + |bytes| <= b.size
    ensures |r| == |chunks| && forall i | 0 <= i < |chunks| :: r[i].size == chunks[i].size && |r[i].data| == |chunks[i].data|
  {
    var c := chunks[b.ptr.chunk];
    var from := b.ptr.offset + at;
    chunks[b.ptr.chunk := c.(data := c.data[..from] + bytes + c.data[from + |bytes|..])]
  }

  /** Overwriting inside a slice, index by index. */
  lemma OverwriteInside(d: seq<byte>, o: nat, n: nat, at: nat, bytes: seq<byte>)
    requires o + n <= |d| && at + |bytes| <= n
    ensures (d[..o + at] + bytes + d[o + at + |bytes|..])[o..o + n]
         == d[o..o + n][..at] + bytes + d[o..o + n][at + |bytes|..]
  {
    var e := d[..o + at] + bytes + d[o + at + |bytes|..];
    var was := d[o..o + n];
    var now := was[..at] + bytes + was[at + |bytes|..];
    forall k | 0 <= k < n ensures e[o..o + n][k] == now[k] {
      assert e[o..o + n][k] == e[o + k];
      if k < at + |bytes| {} else { assert was[k] == d[o + k]; }
    }
  }

  /** Overwriting outside a slice. */
  lemma OverwriteOutside(d: seq<byte>, from: nat, bytes: seq<byte>, o: nat, n: nat)
    requires o + n <= |d| && from + |bytes| <= |d| && (n == 0 || bytes == [] || o + n <= from || from + |bytes| <= o)
    ensures (d[..from] + bytes + d[from + |bytes|..])[o..o + n] == d[o..o + n]
  {
    var e := d[..from] + bytes + d[from + |bytes|..];
    forall k | o <= k < o + n ensures e[k] == d[k] {}
  }

  lemma StoreSelf(chunks: seq<Chunk>, b: Block, at: nat, bytes: seq<byte>)
    requires InBounds(chunks, b) && at + |bytes| <= b.size
    ensures InBounds(Store(chunks, b, at, bytes), b)
    ensures Bytes(Store(chunks, b, at, bytes), b)
         == Bytes(chunks, b)[..at] + bytes + Bytes(chunks, b)[at + |bytes|..]
  {
    OverwriteInside(chunks[b.ptr.chunk].data, b.ptr.offset, b.size, at, bytes);
  }

  lemma StoreOther(chunks: seq<Chunk>, b: Block, at: nat, bytes: seq<byte>, other: Block)
    requires InBounds(chunks, b) && at + |bytes| <= b.size && InBounds(chunks, other) && Disjoint(b, other)
    ensures InBounds(Store(chunks, b, at, bytes), other)
    ensures Bytes(Store(chunks, b, at, bytes), other) == Bytes(chunks, other)
  {
    if b.ptr.chunk == other.ptr.chunk {
      OverwriteOutside(chunks[b.ptr.chunk].data, b.ptr.offset + at, bytes, other.ptr.offset, other.size);
    }
  }

  class MemoryPool {
    var chunks: seq<Chunk>
    const chunkCapacity: nat
    ghost var blocks: seq<Block>   // who holds what

    ghost predicate Valid()
      reads this
    {
      chunks != [] && Safe(chunks, blocks)
    }

    constructor (chunkCapacity: nat)
      ensures Valid() && blocks == [] && this.chunkCapacity == chunkCapacity
    {
      this.chunkCapacity := chunkCapacity;
      chunks, blocks := [Chunk(0, seq(chunkCapacity, _ => 0))], [];
    }

    /** Malloc: from the newest chunk, or a new one if that is full. */
    method Malloc(size: nat) returns (p: Pointer)
      requires Valid()
      modifies this
      ensures Valid() && Extends(old(chunks), chunks)
      ensures blocks == old(blocks) + [Block(p, size)]
      ensures HasRoom(old(chunks), Align4(size)) ==> |chunks| == |old(chunks)| && p == EndOf(old(chunks))
      ensures !HasRoom(old(chunks), Align4(size)) ==> |chunks| == |old(chunks)| + 1 && p == Ptr(|old(chunks)|, 0)
    {
      var aligned := Align4(size);
      var head := chunks[|chunks| - 1];
      if head.size + aligned > |head.data| {
        AddChunk(if chunkCapacity > aligned then chunkCapacity else aligned);
        head := chunks[|chunks| - 1];
      }
      p := Ptr(|chunks| - 1, head.size);
      ghost var before := chunks;
      chunks := chunks[|chunks| - 1 := head.(size := head.size + aligned)];
      BumpSafe(before, blocks, Block(p, size), aligned);
      blocks := blocks + [Block(p, size)];
    }

    method AddChunk(capacity: nat)
      requires Valid()
      modifies this`chunks
      ensures Valid() && Extends(old(chunks), chunks) && |chunks| == |old(chunks)| + 1
      ensures chunks[|chunks| - 1].size == 0 && |chunks[|chunks| - 1].data| == capacity
    {
      chunks := chunks + [Chunk(0, seq(capacity, _ => 0))];
      forall i | 0 <= i < |blocks| ensures InBounds(chunks, blocks[i]) {
        ExtendsKeeps(old(chunks), chunks, blocks[i]);
      }
    }

    /** Realloc with the truthful size of block i: keeps its bytes, whether it grows in place at
        the end of the newest chunk or moves; all other blocks keep their place and their bytes. */
    method Realloc(originalPtr: Pointer, originalSize: nat, newSize: nat, ghost i: nat) returns (p: Pointer)
      requires Valid()
      requires originalPtr.Ptr? ==> i < |blocks| && blocks[i] == Block(originalPtr, originalSize)
      modifies this
      ensures Valid()
      ensures originalPtr.Ptr? && originalSize >= newSize ==> p == originalPtr && chunks == old(chunks)
      ensures originalPtr.Ptr? && originalSize < newSize ==>
                (p == originalPtr <==> EndsAt(old(chunks), originalPtr, originalSize)
                                       && HasRoom(old(chunks), Align4(newSize - originalSize)))
      ensures originalPtr == NullPtr ==> blocks == old(blocks) + [Block(p, newSize)] && Extends(old(chunks), chunks)
      ensures originalPtr.Ptr? ==>
                && blocks == old(blocks)[i := Block(p, newSize)]
                && (forall j | 0 <= j < |blocks| && j != i :: Bytes(chunks, blocks[j]) == old(Bytes(chunks, blocks[j])))
                && var kept := if originalSize < newSize then originalSize else newSize;
                   Bytes(chunks, blocks[i])[..kept] == old(Bytes(chunks, blocks[i]))[..kept]
    {
      if originalPtr == NullPtr {
        p := Malloc(newSize);
        return;
      }
      if originalSize >= newSize {
        ShrinkSafe(chunks, blocks, i, newSize);
        blocks := blocks[i := Block(originalPtr, newSize)];
        return originalPtr;
      }
      var last := |chunks| - 1;
      var head := chunks[last];
      if originalPtr.chunk == last && originalPtr.offset + originalSize == head.size {
        var increment := Align4(newSize - originalSize);
        if head.size + increment <= |head.data| {
          chunks := chunks[last := head.(size := head.size + increment)];
          GrowSafe(old(chunks), blocks, i, newSize, increment);
          blocks := blocks[i := Block(originalPtr, newSize)];
          return originalPtr;
        }
      }
      AlignMonotonic(newSize - originalSize, newSize);
      assert InBounds(chunks, blocks[i]);
      p := MoveBlock(originalPtr, originalSize, newSize, i);
    }

    /** Allocate and copy; the old bytes stay where they are, with nobody holding them. */
    method MoveBlock(originalPtr: Pointer, originalSize: nat, newSize: nat, ghost i: nat) returns (p: Pointer)
      requires Valid() && i < |blocks| && blocks[i] == Block(originalPtr, originalSize) && originalSize < newSize
      modifies this
      ensures Valid() && blocks == old(blocks)[i := Block(p, newSize)]
      ensures forall j | 0 <= j < |blocks| && j != i :: Bytes(chunks, blocks[j]) == old(Bytes(chunks, blocks[j]))
      ensures Bytes(chunks, blocks[i])[..originalSize] == old(Bytes(chunks, blocks[i]))
      ensures p == if HasRoom(old(chunks), Align4(newSize)) then EndOf(old(chunks)) else Ptr(|old(chunks)|, 0)
    {
      p := Malloc(newSize);
      var from, to := Block(originalPtr, originalSize), Block(p, newSize);
      ghost var before, n := chunks, |old(blocks)|;
      assert blocks[n] == to && blocks[i] == from && blocks[..n] == old(blocks);
      forall j | 0 <= j < n ensures Bytes(before, blocks[j]) == old(Bytes(chunks, blocks[j])) {
        ExtendsKeeps(old(chunks), before, old(blocks)[j]);
      }
      chunks := Store(chunks, to, 0, Bytes(chunks, from));
      MoveSafe(before, blocks, n, i, Bytes(before, from));
      blocks := old(blocks)[i := to];
    }

    /** Bytes written into block i do not show in any other block. */
    method Write(b: Block, at: nat, bytes: seq<byte>, ghost i: nat)
      requires Valid() && i < |blocks| && blocks[i] == b && at + |bytes| <= b.size
      modifies this`chunks
      ensures Valid()
      ensures Bytes(chunks, b) == old(Bytes(chunks, b))[..at] + bytes + old(Bytes(chunks, b))[at + |bytes|..]
      ensures forall j | 0 <= j < |blocks| && j != i :: Bytes(chunks, blocks[j]) == old(Bytes(chunks, blocks[j]))
    {
      chunks := Store(chunks, b, at, bytes);
      StoreSelf(old(chunks), b, at, bytes);
      forall j | 0 <= j < |blocks| && j != i
        ensures InBounds(chunks, blocks[j]) && Bytes(chunks, blocks[j]) == Bytes(old(chunks), blocks[j])
      {
        assert Disjoint(b, blocks[j]) by { assert i < j ==> Disjoint(blocks[i], blocks[j]); assert j < i ==> Disjoint(blocks[j], blocks[i]); }
        StoreOther(old(chunks), b, at, bytes, blocks[j]);
      }
    }
  }

  /** A new block behind everything handed out so far. */
  lemma BumpSafe(chunks: seq<Chunk>, blocks: seq<Block>, b: Block, aligned: nat)
    requires chunks != [] && Safe(chunks, blocks) && aligned % 4 == 0 && b.size <= aligned
    requires var last := |chunks| - 1;
             b.ptr == Ptr(last, chunks[last].size) && chunks[last].size + aligned <= |chunks[last].data|
    ensures var last := |chunks| - 1;
            Safe(chunks[last := chunks[last].(size := chunks[last].size + aligned)], blocks + [b])
  {
  }

  lemma SlicePrefix(data: seq<byte>, at: nat, n: nat, m: nat)
    requires n <= m && at + m <= |data|
    ensures data[at..at + m][..n] == data[at..at + n] == data[at..at + n][..n]
  {
  }

  /** A block of another size at the same place is still apart from the others. */
  lemma ResizeDisjoint(blocks: seq<Block>, i: nat, b: Block)
    requires i < |blocks| && b.ptr.Ptr? && forall j | 0 <= j < |blocks| :: blocks[j].ptr.Ptr?
    requires forall j, k | 0 <= j < k < |blocks| :: Disjoint(blocks[j], blocks[k])
    requires forall j | 0 <= j < |blocks| && j != i :: Disjoint(b, blocks[j])
    ensures var all := blocks[i := b]; forall j, k | 0 <= j < k < |all| :: Disjoint(all[j], all[k])
  {
    var all := blocks[i := b];
    forall j, k | 0 <= j < k < |all| ensures Disjoint(all[j], all[k]) {
      if j != i && k != i { assert Disjoint(blocks[j], blocks[k]); }
    }
  }

  lemma OthersApart(chunks: seq<Chunk>, blocks: seq<Block>, i: nat, j: nat)
    requires Safe(chunks, blocks) && i < |blocks| && j < |blocks| && i != j
    ensures Disjoint(blocks[i], blocks[j]) && InBounds(chunks, blocks[j])
  {
    assert i < j ==> Disjoint(blocks[i], blocks[j]);
    assert j < i ==> Disjoint(blocks[j], blocks[i]);
  }

  /** Asking for less: the block stays. */
  lemma ShrinkSafe(chunks: seq<Chunk>, blocks: seq<Block>, i: nat, newSize: nat)
    requires Safe(chunks, blocks) && i < |blocks| && newSize <= blocks[i].size
    ensures var shrunk := Block(blocks[i].ptr, newSize);
            && Safe(chunks, blocks[i := shrunk])
            && Bytes(chunks, shrunk)[..newSize] == Bytes(chunks, blocks[i])[..newSize]
  {
    var b := blocks[i];
    SlicePrefix(chunks[b.ptr.chunk].data, b.ptr.offset, newSize, b.size);
    forall j | 0 <= j < |blocks| && j != i ensures Disjoint(Block(b.ptr, newSize), blocks[j]) {
      OthersApart(chunks, blocks, i, j);
    }
    ResizeDisjoint(blocks, i, Block(b.ptr, newSize));
  }

  /** Block i ends where the newest chunk's used part ends: growing it meets nobody. */
  lemma GrowSafe(chunks: seq<Chunk>, blocks: seq<Block>, i: nat, newSize: nat, increment: nat)
    requires chunks != [] && Safe(chunks, blocks) && i < |blocks| && increment % 4 == 0
    requires var last := |chunks| - 1;
             && blocks[i].ptr.chunk == last && blocks[i].ptr.offset + blocks[i].size == chunks[last].size
             && blocks[i].size < newSize <= blocks[i].size + increment
             && chunks[last].size + increment <= |chunks[last].data|
    ensures var last := |chunks| - 1;
            var after := chunks[last := chunks[last].(size := chunks[last].size + increment)];
            && Safe(after, blocks[i := Block(blocks[i].ptr, newSize)])
            && (forall j | 0 <= j < |blocks| :: InBounds(after, blocks[j]) && Bytes(after, blocks[j]) == Bytes(chunks, blocks[j]))
            && Bytes(after, Block(blocks[i].ptr, newSize))[..blocks[i].size] == Bytes(chunks, blocks[i])
  {
    var last := |chunks| - 1;
    var grown := Block(blocks[i].ptr, newSize);
    UsedMore(chunks, blocks, increment);
    forall j | 0 <= j < |blocks| && j != i ensures Disjoint(grown, blocks[j]) { OthersApart(chunks, blocks, i, j); }
    ResizeDisjoint(blocks, i, grown);
    SlicePrefix(chunks[last].data, grown.ptr.offset, blocks[i].size, newSize);
  }

  /** More of the newest chunk in use: every block and its bytes are where they were. */
  lemma UsedMore(chunks: seq<Chunk>, blocks: seq<Block>, increment: nat)
    requires chunks != [] && Safe(chunks, blocks) && increment % 4 == 0
    requires chunks[|chunks| - 1].size + increment <= |chunks[|chunks| - 1].data|
    ensures var last := |chunks| - 1;
            var after := chunks[last := chunks[last].(size := chunks[last].size + increment)];
            && Safe(after, blocks)
            && forall j | 0 <= j < |blocks| :: Bytes(after, blocks[j]) == Bytes(chunks, blocks[j])
  {
  }

  /** Copying the bytes of block i into the block n that was just made, which takes its place. */
  lemma MoveSafe(chunks: seq<Chunk>, blocks: seq<Block>, n: nat, i: nat, bytes: seq<byte>)
    requires Safe(chunks, blocks) && i < n && |blocks| == n + 1
    requires bytes == Bytes(chunks, blocks[i]) && |bytes| <= blocks[n].size
    ensures var after := Store(chunks, blocks[n], 0, bytes);
            && Safe(after, blocks[..n][i := blocks[n]])
            && Bytes(after, blocks[n])[..|bytes|] == bytes
            && (forall j | 0 <= j < n && j != i :: Bytes(after, blocks[j]) == Bytes(chunks, blocks[j]))
  {
    var after := Store(chunks, blocks[n], 0, bytes);
    StoreSelf(chunks, blocks[n], 0, bytes);
    forall j | 0 <= j < n ensures InBounds(after, blocks[j]) && Bytes(after, blocks[j]) == Bytes(chunks, blocks[j]) {
      OthersApart(chunks, blocks, n, j);
      StoreOther(chunks, blocks[n], 0, bytes, blocks[j]);
    }
    forall j | 0 <= j < n && j != i ensures Disjoint(blocks[n], blocks[..n][j]) { OthersApart(chunks, blocks, n, j); }
    ResizeDisjoint(blocks[..n], i, blocks[n]);
  }

  // ---- the stack on top of it ----

  /** A stack of bytes in one block of a pool that others use as well. */
  class ByteStack {
    const pool: MemoryPool
    var base: Pointer
    var top: nat
    var capacity: nat
    ghost var index: nat   // its block among the pool's

    ghost predicate Valid()
      reads this, pool
    {
      && pool.Valid() && index < |pool.blocks| && pool.blocks[index] == Block(base, capacity)
      && top <= capacity && 0 < capacity
    }

    ghost function Contents(): seq<byte>
      requires Valid()
      reads this, pool
    {
      Bytes(pool.chunks, pool.blocks[index])[..top]
    }

    constructor (pool: MemoryPool, capacity: nat)
      requires pool.Valid() && capacity > 0
      modifies pool
      ensures Valid() && Contents() == [] && this.pool == pool && index == |old(pool.blocks)|
      ensures pool.blocks[..index] == old(pool.blocks) && Extends(old(pool.chunks), pool.chunks)
    {
      this.pool, this.capacity := pool, capacity;
      index, top := |pool.blocks|, 0;
      var block := pool.Malloc(capacity);
      base := block;
    }

    /** Push: room for the bytes, then the bytes. Growing may move the whole stack; nobody
        notices, neither the stack's own contents nor any other block of the pool. */
    method Push(bytes: seq<byte>)
      requires Valid()
      modifies this, pool
      ensures Valid() && index == old(index) && |pool.blocks| == |old(pool.blocks)|
      ensures Contents() == old(Contents()) + bytes
      ensures old(top) + |bytes| < old(capacity) ==> capacity == old(capacity) && base == old(base)
      ensures old(top) + |bytes| >= old(capacity) ==>
                capacity == if 2 * old(capacity) < old(top) + |bytes| then old(top) + |bytes| else 2 * old(capacity)
      ensures forall j | 0 <= j < |pool.blocks| && j != index ::
                pool.blocks[j] == old(pool.blocks)[j]
                && Bytes(pool.chunks, pool.blocks[j]) == old(Bytes(pool.chunks, pool.blocks[j]))
    {
      if top + |bytes| >= capacity { Grow(|bytes|); }
      pool.Write(Block(base, capacity), top, bytes, index);
      top := top + |bytes|;
    }

    method Grow(count: nat)
      requires Valid()
      modifies this, pool
      ensures Valid() && index == old(index) && |pool.blocks| == |old(pool.blocks)| && top == old(top)
      ensures Contents() == old(Contents()) && top + count <= capacity
      ensures capacity == if 2 * old(capacity) < top + count then top + count else 2 * old(capacity)
      ensures forall j | 0 <= j < |pool.blocks| && j != index ::
                pool.blocks[j] == old(pool.blocks)[j]
                && Bytes(pool.chunks, pool.blocks[j]) == old(Bytes(pool.chunks, pool.blocks[j]))
    {
      var newCapacity := capacity * 2;
      var newSize := top + count;
      if newCapacity < newSize { newCapacity := newSize; }
      ghost var was := Bytes(pool.chunks, pool.blocks[index]);
      base := pool.Realloc(base, capacity, newCapacity, index);
      ghost var now := Bytes(pool.chunks, pool.blocks[index]);
      assert was[..top] == was[..capacity][..top] && now[..top] == now[..capacity][..top];
      capacity := newCapacity;
    }

    /** Pop: the bytes are still there, above the new top. */
    method Pop(count: nat) returns (bytes: seq<byte>)
      requires Valid() && count <= top
      modifies this`top
      ensures Valid() && Contents() + bytes == old(Contents()) && |bytes| == count
    {
      top := top - count;
      bytes := Bytes(pool.chunks, Block(base, capacity))[top..top + count];
    }
  }
}
