/** The arena, its chunks and its marks as objects, updated in place, each method tied to the model's step. */
module Arenas {
  import opened Words
  import opened Memory
  import opened ArenaModel
  import opened ArenaSafety
  import Runs = ArenaRuns
  import Facts = ArenaFacts

  class Chunk {
    const base: nat   // the address of the chunk object itself
    const len: Word
    var next: Chunk?

    /** `new(length) Chunk(length)`: header and data from one C-heap region. */
    constructor (heap: CHeap, length: Word, at: nat)
      requires MallocOk(heap.regions, at, OVERHEAD + length)
      modifies heap`regions
      ensures base == at && len == length && next == null
      ensures heap.regions == old(heap.regions)[at := OVERHEAD + length]
    {
      var p := heap.AllocateHeap(OVERHEAD + length, at);
      base := p;
      len := length;
      next := null;
    }

    function Bottom(): nat { base + OVERHEAD }
    function Top(): nat { Bottom() + len }
    predicate Contains(p: nat) { Bottom() <= p <= Top() }
  }

  function Recs(list: seq<Chunk>): (r: seq<ChunkRec>)
    ensures |r| == |list|
    ensures forall i :: 0 <= i < |list| ==> r[i] == ChunkRec(list[i].base, list[i].len)
  {
    seq(|list|, i requires 0 <= i < |list| => ChunkRec(list[i].base, list[i].len))
  }

  /** The element after position i, as a pointer. */
  function NextOf(list: seq<Chunk>, i: nat): Chunk? { if i + 1 < |list| then list[i + 1] else null }

  function LastOf(list: seq<Chunk>): Chunk? { if list == [] then null else list[|list| - 1] }

  ghost predicate Chained(list: seq<Chunk>)
    reads list
  {
    forall i: nat {:trigger NextOf(list, i)} :: i < |list| ==> list[i].next == NextOf(list, i)
  }

  /** The block that Amalloc(y) would return does not overlap the x bytes at p. */
  predicate CopyClear(s: Area, p: Word, x: Word, y: Word, at: nat)
    requires AtOk(s, y, at)
  {
    var q := AmallocPtr(s, y, at);
    x == 0 || q + x <= p || p + x <= q
  }

  lemma LastIsDistinct(list: seq<Chunk>)
    requires Chained(list)
    ensures forall i :: 0 <= i < |list| - 1 ==> list[i] != list[|list| - 1]
  {
    forall i | 0 <= i < |list| - 1 ensures list[i] != list[|list| - 1] {
      assert list[i].next == NextOf(list, i);
      assert list[|list| - 1].next == NextOf(list, |list| - 1);
    }
  }

  function OneChunk(at: nat, len: Word): Area
    requires at + OVERHEAD + len <= ADDRESS_LIMIT
  {
    Area([ChunkRec(at, len)], at, at + OVERHEAD, at + OVERHEAD + len, len + OVERHEAD)
  }

  lemma OneChunkInv(regions: Regions, m: Mem, at: nat, len: Word)
    requires RegionsOk(regions) && MallocOk(regions, at, OVERHEAD + len)
    ensures Inv(World(regions[at := OVERHEAD + len], m, OneChunk(at, len), map[], [], 0))
  {
    MallocKeepsRegionsOk(regions, at, OVERHEAD + len);
    HeaderAligned(at);
    var cs := [ChunkRec(at, len)];
    assert cs[..0] == [];
    assert Sum(cs) == len + OVERHEAD;
  }

  class Arena {
    const heap: CHeap
    var first: Chunk?
    var chunk: Chunk?
    var hwm: Word
    var max: Word
    var sizeInBytes: Word

    ghost var list: seq<Chunk>       // the chunks reached from `first`
    ghost var live: map<nat, Block>  // the clients' blocks
    ghost var marks: seq<Area>       // the area at each open mark
    ghost var names: nat             // the next unused block name

    ghost function View(): Area
      reads this
    {
      Area(Recs(list), if chunk == null then 0 else chunk.base, hwm, max, sizeInBytes)
    }

    ghost function World(): World
      reads this, heap
    {
      ArenaModel.World(heap.regions, heap.mem, View(), live, marks, names)
    }

    /** The list is what the pointers say: from `first` along `next` to null. */
    ghost predicate Linked()
      reads `first, `list, list
    {
      first == (if list == [] then null else list[0]) && Chained(list)
    }

    /** And `chunk` is the end of it. */
    ghost predicate Shape()
      reads `first, `chunk, `list, list
    {
      Linked() && chunk == LastOf(list)
    }

    ghost predicate Sound()
      reads this, heap, list
    {
      Shape() && Inv(World())
    }

    /** A state that one of the model's steps reaches from a sound one is sound. */
    lemma StillSound(w: World, op: Op)
      requires Inv(w) && Enabled(w, op) && World() == Step(w, op) && Shape()
      ensures Sound()
    {
      StepInv(w, op);
    }

    constructor (heap: CHeap)
      requires RegionsOk(heap.regions)
      ensures Sound() && this.heap == heap
      ensures World() == ArenaModel.World(heap.regions, heap.mem, EMPTY, map[], [], 0)
      ensures list == []
    {
      this.heap := heap;
      first, chunk, hwm, max, sizeInBytes := null, null, 0, 0, 0;
      list, live, marks, names := [], map[], [], 0;
    }

    /** With an initial chunk, unless its size is 0. */
    constructor Sized(heap: CHeap, initSize: Word, at: nat)
      requires RegionsOk(heap.regions) && (initSize > 0 ==> MallocOk(heap.regions, at, OVERHEAD + initSize))
      modifies heap`regions
      ensures Sound() && this.heap == heap && fresh(list)
      ensures View() == if initSize == 0 then EMPTY else OneChunk(at, initSize)
      ensures heap.regions == if initSize == 0 then old(heap.regions) else old(heap.regions)[at := OVERHEAD + initSize]
      ensures live == map[] && marks == [] && names == 0
      ensures initSize == 0 ==> list == []
      ensures initSize > 0 ==>
                && |list| == 1 && list[0].base == at && list[0].len == initSize
                && hwm == at + 16 && max == at + 16 + initSize && sizeInBytes == initSize + 16
    {
      this.heap := heap;
      first, chunk, hwm, max, sizeInBytes := null, null, 0, 0, 0;
      list, live, marks, names := [], map[], [], 0;
      new;
      if initSize > 0 {
        FirstChunk(initSize, at);
        OneChunkInv(old(heap.regions), heap.mem, at, initSize);
      }
    }

    method FirstChunk(initSize: Word, at: nat)
      requires MallocOk(heap.regions, at, OVERHEAD + initSize)
      modifies this`first, this`chunk, this`hwm, this`max, this`sizeInBytes, this`list, heap`regions
      ensures Shape() && |list| == 1 && fresh(list[0]) && View() == OneChunk(at, initSize)
      ensures heap.regions == old(heap.regions)[at := OVERHEAD + initSize]
    {
      var k := new Chunk(heap, initSize, at);
      first, chunk := k, k;
      hwm, max := k.Bottom(), k.Top();
      sizeInBytes := initSize + OVERHEAD;
      list := [k];
    }

    /** Append a chunk with room for x aligned bytes, make it current and allocate from its start. */
    method Grow(x: Word, at: nat) returns (p: Word)
      requires Shape() && MallocOk(heap.regions, at, OVERHEAD + GrowLen(x))
      modifies this`first, this`chunk, this`hwm, this`max, this`sizeInBytes, this`list, heap`regions
      modifies if chunk == null then {} else {chunk}
      ensures Shape() && fresh(chunk) && list == old(list) + [chunk]
      ensures View() == ArenaModel.Grow(old(View()), x, at)
      ensures heap.regions == old(heap.regions)[at := OVERHEAD + GrowLen(x)]
      ensures p == at + 16 && chunk.base == at
      ensures x <= MAX_REQUEST ==> chunk.len == if x < 16364 then 32728 else 2 * x
    {
      var len := Add(x, x);
      if len < CHUNK_SIZE {
        len := CHUNK_SIZE;
      }
      ghost var before := list;
      var k := new Chunk(heap, len, at);
      sizeInBytes := Add(sizeInBytes, len + OVERHEAD);
      Link(k);
      hwm := k.Bottom();
      max := k.Top();
      p := hwm;
      hwm := Add(hwm, x);
      assert Recs(list) == Recs(before) + [ChunkRec(at, len)];
    }

    /** Put k at the end of the list. */
    method Link(k: Chunk)
      requires Shape() && k.next == null && k !in list
      modifies this`first, this`chunk, this`list
      modifies if chunk == null then {} else {chunk}
      ensures Shape() && chunk == k && list == old(list) + [k]
    {
      ghost var before := list;
      LastIsDistinct(list);
      if first == null {
        first := k;
      } else {
        chunk.next := k;
      }
      list := list + [k];
      chunk := k;
      forall i: nat | i < |list| ensures list[i].next == NextOf(list, i) {
        if i < |before| {
          assert old(before[i].next) == NextOf(before, i);
        }
      }
    }

    method Amalloc(size: Word, at: nat) returns (p: Word)
      requires Shape()
      requires NeedsChunk(View(), size) ==> MallocOk(heap.regions, at, ChunkBytes(size))
      modifies this`first, this`chunk, this`hwm, this`max, this`sizeInBytes, this`list, heap`regions
      modifies if chunk == null then {} else {chunk}
      ensures Shape() && old(list) <= list && (chunk == old(chunk) || fresh(chunk))
      ensures View() == ArenaModel.Amalloc(old(View()), size, at)
      ensures heap.regions == RegionsAfter(old(heap.regions), old(View()), size, at)
      ensures p == AmallocPtr(old(View()), size, at)
    {
      var x := ArenaAlign(size);
      if Add(hwm, x) > max {
        p := Grow(x, at);
      } else {
        p := hwm;
        hwm := Add(hwm, x);
      }
    }

    /** Lower the high-water mark to p if p's block is the last one. */
    method Afree(p: Word, size: Word)
      modifies this`hwm
      ensures View() == ArenaModel.Afree(old(View()), p, size)
    {
      if p == 0 {
        return;
      }
      if Add(p, ArenaAlign(size)) == hwm {
        hwm := p;
      }
    }

    /** The copy path needs what memcpy needs: that the new block does not overlap the old one. MoveApart
        shows that it never does when the old one is a live block. */
    method Arealloc(oldPtr: Word, oldSize: Word, newSize: Word, at: nat) returns (p: Word)
      requires Shape()
      requires ReallocNeedsChunk(View(), oldPtr, oldSize, newSize) ==> MallocOk(heap.regions, at, ChunkBytes(newSize))
      requires PathOf(View(), oldPtr, oldSize, newSize) == Move ==>
                 AtOk(View(), ArenaAlign(newSize), at)
                 && CopyClear(View(), oldPtr, ArenaAlign(oldSize), ArenaAlign(newSize), at)
      modifies this`first, this`chunk, this`hwm, this`max, this`sizeInBytes, this`list, heap
      modifies if chunk == null then {} else {chunk}
      ensures Shape() && old(list) <= list && (chunk == old(chunk) || fresh(chunk))
      ensures View() == ArenaModel.Arealloc(old(View()), oldPtr, oldSize, newSize, at)
      ensures heap.regions == if ReallocNeedsChunk(old(View()), oldPtr, oldSize, newSize)
                              then old(heap.regions)[at := ChunkBytes(newSize)] else old(heap.regions)
      ensures heap.mem == if PathOf(old(View()), oldPtr, oldSize, newSize) == Move
                          then CopyBytes(old(heap.mem), p, oldPtr, ArenaAlign(oldSize)) else old(heap.mem)
      ensures p == AreallocPtr(old(View()), oldPtr, oldSize, newSize, at)
    {
      if oldPtr == 0 {
        p := Amalloc(newSize, at);
        return;
      }
      var x := ArenaAlign(oldSize);
      var y := ArenaAlign(newSize);
      if y <= x {
        return oldPtr;
      }
      if Add(oldPtr, x) == hwm && Add(hwm, y - x) <= max {
        hwm := Add(hwm, y - x);
        return oldPtr;
      }
      AlignTwice(newSize);
      assert ChunkBytes(y) == ChunkBytes(newSize) && NeedsChunk(View(), y) == NeedsChunk(View(), newSize);
      p := CopyToNew(oldPtr, x, y, at);
    }

    /** The last part of Arealloc, on aligned sizes: a new block, the old bytes, and Afree of the old block. */
    method CopyToNew(oldPtr: Word, x: Word, y: Word, at: nat) returns (p: Word)
      requires Shape() && (NeedsChunk(View(), y) ==> MallocOk(heap.regions, at, ChunkBytes(y)))
      requires CopyClear(View(), oldPtr, x, y, at)
      modifies this`first, this`chunk, this`hwm, this`max, this`sizeInBytes, this`list, heap
      modifies if chunk == null then {} else {chunk}
      ensures Shape() && old(list) <= list && (chunk == old(chunk) || fresh(chunk))
      ensures View() == ArenaModel.Afree(ArenaModel.Amalloc(old(View()), y, at), oldPtr, x)
      ensures heap.regions == RegionsAfter(old(heap.regions), old(View()), y, at)
      ensures p == AmallocPtr(old(View()), y, at) && heap.mem == CopyBytes(old(heap.mem), p, oldPtr, x)
    {
      p := Amalloc(y, at);
      heap.Memcpy(p, oldPtr, x);
      Afree(oldPtr, x);
    }

    // The clients' side: the same calls, with the block they concern recorded in `live`.

    method NewBlock(size: Word, at: nat, ghost name: nat) returns (p: Word)
      requires Sound() && size <= MAX_REQUEST
      requires NeedsChunk(View(), size) ==> MallocOk(heap.regions, at, ChunkBytes(size))
      modifies this, heap`regions
      modifies if chunk == null then {} else {chunk}
      ensures Sound() && old(list) <= list && (chunk == old(chunk) || fresh(chunk))
      ensures World() == AllocAs(old(World()), name, size, at)
      ensures p == live[name].addr
    {
      AllocInv(World(), name, size, at);
      p := AmallocNamed(size, at, name);
    }

    method AmallocNamed(size: Word, at: nat, ghost name: nat) returns (p: Word)
      requires Shape()
      requires NeedsChunk(View(), size) ==> MallocOk(heap.regions, at, ChunkBytes(size))
      modifies this, heap`regions
      modifies if chunk == null then {} else {chunk}
      ensures Shape() && old(list) <= list && (chunk == old(chunk) || fresh(chunk))
      ensures World() == AllocAs(old(World()), name, size, at)
      ensures p == live[name].addr
    {
      ghost var w := World();
      p := Amalloc(size, at);
      live := AllocAs(w, name, size, at).live;
      names := AllocAs(w, name, size, at).next;
    }

    method FreeBlock(p: Word, size: Word, ghost id: nat)
      requires Sound() && id in live && live[id].home.InChunk? && live[id].addr == p && live[id].size == size
      modifies this`hwm, this`live
      ensures Sound() && World() == Step(old(World()), Free(id))
    {
      FreeInv(World(), id);
      Afree(p, size);
      live := live - {id};
    }

    method ResizeBlock(oldPtr: Word, oldSize: Word, newSize: Word, at: nat, ghost id: nat) returns (p: Word)
      requires Sound() && newSize <= MAX_REQUEST
      requires id in live && live[id].home.InChunk? && live[id].addr == oldPtr && live[id].size == oldSize
      requires ReallocNeedsChunk(View(), oldPtr, oldSize, newSize) ==> MallocOk(heap.regions, at, ChunkBytes(newSize))
      modifies this, heap
      modifies if chunk == null then {} else {chunk}
      ensures Sound() && old(list) <= list && (chunk == old(chunk) || fresh(chunk))
      ensures World() == Step(old(World()), Realloc(id, newSize, at))
      ensures p == live[id].addr
    {
      ReallocAllowed(World(), id, newSize, at);
      p := AreallocNamed(oldPtr, oldSize, newSize, at, id);
    }

    method AreallocNamed(oldPtr: Word, oldSize: Word, newSize: Word, at: nat, ghost id: nat) returns (p: Word)
      requires Shape() && id in live && live[id].addr == oldPtr && live[id].size == oldSize
      requires ReallocNeedsChunk(View(), oldPtr, oldSize, newSize) ==> MallocOk(heap.regions, at, ChunkBytes(newSize))
      requires PathOf(View(), oldPtr, oldSize, newSize) == Move ==>
                 AtOk(View(), ArenaAlign(newSize), at)
                 && CopyClear(View(), oldPtr, ArenaAlign(oldSize), ArenaAlign(newSize), at)
      modifies this, heap
      modifies if chunk == null then {} else {chunk}
      ensures Shape() && old(list) <= list && (chunk == old(chunk) || fresh(chunk))
      ensures World() == DoRealloc(old(World()), id, newSize, at)
      ensures p == live[id].addr
    {
      ghost var w := World();
      p := Arealloc(oldPtr, oldSize, newSize, at);
      live := DoRealloc(w, id, newSize, at).live;
    }

    /** `used()`: the bytes handed out, walking the list. */
    method Used() returns (sum: nat)
      requires Sound()
      ensures sum == ArenaModel.Used(View())
    {
      sum := 0;
      var k := first;
      ghost var i := 0;
      ghost var cs := Recs(list);
      while k != null
        invariant 0 <= i <= |list| && k == (if i < |list| then list[i] else null)
        invariant sum + UsedIn(cs[i..], View().current, hwm) == ArenaModel.Used(View())
        decreases |list| - i
      {
        assert cs[i..][0] == cs[i] && cs[i..][1..] == cs[i + 1..];
        assert i < |list| - 1 ==> Differ(cs[i], cs[|list| - 1]);
        if k == chunk {
          sum := sum + (hwm - k.Bottom());
        } else {
          sum := sum + k.len;
        }
        assert k.next == NextOf(list, i);
        k := k.next;
        i := i + 1;
      }
    }

    method ContainsPtr(p: nat) returns (found: bool)
      requires Linked()
      ensures found <==> ArenaModel.Contains(View(), p)
    {
      var k := first;
      ghost var i := 0;
      while k != null
        invariant 0 <= i <= |list| && k == (if i < |list| then list[i] else null)
        invariant forall j :: 0 <= j < i ==> !View().chunks[j].Contains(p)
        decreases |list| - i
      {
        if k.Contains(p) {
          assert View().chunks[i].Contains(p);
          return true;
        }
        assert k.next == NextOf(list, i);
        k := k.next;
        i := i + 1;
      }
      return false;
    }

    /** Give every chunk back to the C heap and return to the empty state. */
    method DestructContents()
      requires Sound()
      modifies this`first, this`chunk, this`hwm, this`max, this`sizeInBytes, this`list, this`live, heap`regions
      ensures Shape() && World() == DoDestruct(old(World())) && View() == EMPTY
      ensures Sound() <==> forall i :: 0 <= i < |marks| ==> marks[i].chunks == []
      ensures forall k :: k in old(list) ==> k.base in old(heap.regions) && k.base !in heap.regions
      ensures forall b :: b in old(heap.regions) && (forall k :: k in old(list) ==> k.base != b) ==>
                b in heap.regions && heap.regions[b] == old(heap.regions)[b]
    {
      ghost var w := World();
      DestructSoundExactly(w);
      DestructedList(w, list);
      FreeAll();
      live := DoDestruct(w).live;
    }

    /** Give every chunk back and be the empty arena. */
    method FreeAll()
      requires Linked() && ChunksOk(Recs(list), heap.regions) && 0 !in heap.regions
      modifies this`first, this`chunk, this`hwm, this`max, this`sizeInBytes, this`list, heap`regions
      ensures Shape() && View() == EMPTY && heap.regions == old(heap.regions) - Bases(old(Recs(list)))
    {
      assert Recs(list)[0..] == Recs(list);
      FreeChain(heap, first, list, 0);
      Reset();
    }

    /** Delete the chunks after k, the n-th of the list, and end the list there. */
    method CutAfter(k: Chunk, ghost n: nat)
      requires Linked() && ChunksOk(Recs(list), heap.regions) && 0 !in heap.regions
      requires 0 < n <= |list| && k == list[n - 1]
      modifies `list, k, heap`regions
      ensures Linked() && list == old(list)[..n]
      ensures heap.regions == old(heap.regions) - Bases(Recs(old(list))[n..])
    {
      ghost var before := list;
      ghost var cs := Recs(list);
      assert k.next == NextOf(list, n - 1);
      FreeChain(heap, k.next, before, n);
      k.next := null;
      list := before[..n];
      forall i: nat | i < n ensures list[i].next == NextOf(list, i) {
        assert old(before[i].next) == NextOf(before, i);
        assert i < n - 1 ==> Differ(cs[i], cs[n - 1]);
      }
    }

    method Reset()
      modifies this`first, this`chunk, this`hwm, this`max, this`sizeInBytes, this`list
      ensures Shape() && list == [] && View() == EMPTY
    {
      first, chunk := null, null;
      hwm, max := 0, 0;
      sizeInBytes := 0;
      list := [];
    }
  }

  lemma NotYetFreed(cs: seq<ChunkRec>, from: nat, i: nat)
    requires Distinct(cs) && from <= i < |cs|
    ensures cs[i].base !in Bases(cs[from..i])
  {
    forall j | 0 <= j < i - from ensures cs[from..i][j].base != cs[i].base {
      assert Differ(cs[from + j], cs[i]);
    }
    InBases(cs[from..i], cs[i].base);
  }

  lemma FreeOne(regions: Regions, cs: seq<ChunkRec>, from: nat, i: nat)
    requires ChunksOk(cs, regions) && 0 !in regions && from <= i < |cs|
    ensures cs[i].base != 0 && cs[i].base in regions - Bases(cs[from..i])
    ensures regions - Bases(cs[from..i]) - {cs[i].base} == regions - Bases(cs[from..i + 1])
  {
    assert cs[from..i + 1] == cs[from..i] + [cs[i]];
    Runs.BasesSnoc(cs[from..i], cs[i]);
    NotYetFreed(cs, from, i);
  }

  /** Which regions a destruction frees, seen from the objects. */
  lemma DestructedList(w: World, list: seq<Chunk>)
    requires Inv(w) && w.area.chunks == Recs(list)
    ensures forall k :: k in list ==> k.base in w.regions && k.base !in DoDestruct(w).regions
    ensures forall b :: b in w.regions && (forall k :: k in list ==> k.base != b) ==>
              b in DoDestruct(w).regions && DoDestruct(w).regions[b] == w.regions[b]
  {
    Facts.DestructFrees(w);
    forall k | k in list ensures k.base in w.regions && k.base !in DoDestruct(w).regions {
      var i :| 0 <= i < |list| && list[i] == k;
      assert w.area.chunks[i].base == k.base;
    }
  }

  /** Delete the chunks from list[from] to the end of the list, reading `next` before each is gone. */
  method FreeChain(heap: CHeap, head: Chunk?, ghost list: seq<Chunk>, ghost from: nat)
    requires from <= |list| && head == (if from < |list| then list[from] else null)
    requires Chained(list) && ChunksOk(Recs(list), heap.regions)
    requires 0 !in heap.regions
    modifies heap`regions
    ensures heap.regions == old(heap.regions) - Bases(Recs(list)[from..])
  {
    var k := head;
    ghost var i := from;
    ghost var cs := Recs(list);
    assert cs[from..from] == [];
    while k != null
      invariant from <= i <= |list| && k == (if i < |list| then list[i] else null)
      invariant heap.regions == old(heap.regions) - Bases(cs[from..i])
      decreases |list| - i
    {
      assert k.next == NextOf(list, i);
      var next := k.next;
      FreeOne(old(heap.regions), cs, from, i);
      heap.FreeHeap(k.base);
      k := next;
      i := i + 1;
    }
    assert cs[from..i] == cs[from..];
  }

  /** The copy of Arealloc never overlaps: the two blocks are apart. */
  lemma MoveApart(w: World, id: nat, size: Word, at: nat)
    requires Inv(w) && Enabled(w, Realloc(id, size, at))
    requires PathOf(w.area, w.live[id].addr, w.live[id].size, size) == Move
    ensures AtOk(w.area, ArenaAlign(size), at)
    ensures CopyClear(w.area, w.live[id].addr, ArenaAlign(w.live[id].size), ArenaAlign(size), at)
  {
    Runs.MoveAllowed(w, id, size, at);
    AlignTwice(size);
    assert Placed(w.area, w.regions, w.live[id]);
    FreshBlockApart(w.area, w.regions, ArenaAlign(size), at, w.live[id], 0);
  }

  lemma ReallocAllowed(w: World, id: nat, size: Word, at: nat)
    requires Inv(w) && Enabled(w, Realloc(id, size, at))
    ensures Inv(DoRealloc(w, id, size, at))
    ensures PathOf(w.area, w.live[id].addr, w.live[id].size, size) == Move ==>
              && AtOk(w.area, ArenaAlign(size), at)
              && CopyClear(w.area, w.live[id].addr, ArenaAlign(w.live[id].size), ArenaAlign(size), at)
  {
    ReallocInv(w, id, size, at);
    if PathOf(w.area, w.live[id].addr, w.live[id].size, size) == Move {
      MoveApart(w, id, size, at);
    }
  }

  /** Where a mark cuts the list: behind its chunk, or nowhere. */
  lemma CutPoint(s: Area, m: Mark, n: nat)
    requires Distinct(s.chunks) && n <= |s.chunks|
    requires if m.chunk == 0 then n == |s.chunks| else n > 0 && m.chunk == s.chunks[n - 1].base
    ensures Freed(s, m) == s.chunks[n..] && ArenaModel.ResetToMark(s, m).chunks == s.chunks[..n]
  {
    if m.chunk != 0 {
      assert s.chunks == s.chunks[..n] + s.chunks[n..];
      DistinctSlice(s.chunks, 0, n);
      SplitAtMark(s.chunks[..n], s.chunks[n..]);
    }
  }

  lemma ResetFields(w: World, v: World)
    requires w.marks != []
    requires var d := |w.marks| - 1; var m := MarkOf(w.marks[d]);
             && v.regions == w.regions - Bases(Freed(w.area, m)) && v.area == ArenaModel.ResetToMark(w.area, m)
             && v.live == Survivors(w.live, d)
    requires v.mem == w.mem && v.marks == w.marks && v.next == w.next
    ensures v == DoReset(w)
  {
  }

  class ResourceMark {
    const area: Arena
    const chunk: Chunk?
    const hwm: Word
    const max: Word
    const sizeInBytes: Word
    ghost const depth: nat   // how many marks were open before this one

    /** Innermost open mark of its area, and its saved fields are the area's at the time it was opened. */
    ghost predicate Open()
      reads area`marks, area`list
    {
      && |area.marks| == depth + 1
      && var saved := area.marks[depth];
         && MarkOf(saved) == Mark(if chunk == null then 0 else chunk.base, hwm, max, sizeInBytes)
         && |saved.chunks| <= |area.list|
         && chunk == (if saved.chunks == [] then null else area.list[|saved.chunks| - 1])
    }

    constructor (r: Arena)
      requires r.Shape()
      modifies r`marks
      ensures area == r && r.Shape() && Open()
      ensures r.World() == Step(old(r.World()), PushMark)
    {
      area := r;
      chunk := r.chunk;
      hwm := r.hwm;
      max := r.max;
      sizeInBytes := r.sizeInBytes;
      depth := |r.marks|;
      new;
      r.marks := r.marks + [r.View()];
    }

    /** What the list must be like for the mark to cut it: it begins with the saved chunks, and every listed
        chunk is allocated, once. */
    ghost predicate Cuttable()
      reads area, area.list, area.heap
    {
      && area.Linked() && Open() && ChunksOk(Recs(area.list), area.heap.regions) && 0 !in area.heap.regions
      && area.marks[depth].chunks <= Recs(area.list)
    }

    /** The first half of reset_to_mark: delete the chunks after the saved one and end the list there. */
    method FreeLaterChunks()
      requires Cuttable()
      modifies area`list, area.heap`regions
      modifies if chunk == null then {} else {chunk}
      ensures area.Linked() && Open() && area.list <= old(area.list)
      ensures chunk != null ==> chunk == LastOf(area.list)
      ensures chunk == null ==> area.list == old(area.list)
      ensures Recs(area.list) == ArenaModel.ResetToMark(old(area.View()), MarkOf(area.marks[depth])).chunks
      ensures area.heap.regions == old(area.heap.regions) - Bases(Freed(old(area.View()), MarkOf(area.marks[depth])))
    {
      ghost var n := if chunk == null then |area.list| else |area.marks[depth].chunks|;
      ghost var cs := Recs(area.list);
      CutPoint(area.View(), MarkOf(area.marks[depth]), n);
      assert area.list[..|area.list|] == area.list && cs[..|cs|] == cs;
      assert Bases(cs[|cs|..]) == {};
      if chunk != null {
        assert chunk.next == NextOf(area.list, n - 1);
        if chunk.next != null {
          area.CutAfter(chunk, n);
        }
      }
      assert Recs(area.list) == cs[..n];
    }

    /** The second half: put the saved fields back. The clients' blocks that are younger than the mark are blocks
        no more. */
    method Restore(ghost w: World)
      requires Open() && area.marks == w.marks && area.live == w.live && area.names == w.next
      requires var m := MarkOf(w.marks[depth]);
               && area.heap.regions == w.regions - Bases(Freed(w.area, m)) && area.heap.mem == w.mem
               && Recs(area.list) == ArenaModel.ResetToMark(w.area, m).chunks
      modifies area`chunk, area`hwm, area`max, area`sizeInBytes, area`live
      ensures area.chunk == chunk && area.World() == DoReset(w)
    {
      area.chunk := chunk;
      area.hwm := hwm;
      area.max := max;
      area.sizeInBytes := sizeInBytes;
      area.live := Survivors(area.live, depth);
      ResetFields(w, area.World());
    }

    /** Free the chunks appended since the mark, end the list at the saved chunk, and put the fields back. */
    method ResetToMark()
      requires Cuttable()
      modifies area`chunk, area`hwm, area`max, area`sizeInBytes, area`list, area`live, area.heap`regions
      modifies if chunk == null then {} else {chunk}
      ensures area.World() == DoReset(old(area.World()))
      ensures Open() && area.Linked() && area.list <= old(area.list)
      ensures chunk != null || old(area.list) == [] ==> area.Shape()
    {
      ghost var w := area.World();
      FreeLaterChunks();
      Restore(w);
    }

    /** A sound area's innermost mark can always cut its list. */
    lemma SoundIsCuttable()
      requires area.Sound() && Open()
      ensures Cuttable()
    {
      OlderMark(area.World(), depth);
    }

    /** The destructor. */
    method Release()
      requires Cuttable()
      modifies area`chunk, area`hwm, area`max, area`sizeInBytes, area`list, area`live, area`marks, area.heap`regions
      modifies if chunk == null then {} else {chunk}
      ensures area.World() == DoRelease(old(area.World()))
      ensures area.Linked() && area.list <= old(area.list)
      ensures chunk != null || old(area.list) == [] ==> area.Shape()
    {
      ResetToMark();
      area.marks := area.marks[..depth];
    }

    // The clients' side: the same calls on a sound area, which is sound again afterwards.

    /** May the mark be undone? */
    ghost predicate Safe()
      reads this, area`list
    {
      chunk != null || area.list == []
    }

    lemma SafeIsEnabled()
      requires area.Sound() && Open() && Safe()
      ensures Cuttable() && Enabled(area.World(), ArenaModel.Reset) && Enabled(area.World(), ArenaModel.Release)
      ensures DoReset(area.World()).area == area.marks[depth] == DoRelease(area.World()).area
    {
      SoundIsCuttable();
      OlderMark(area.World(), depth);
      ResetInv(area.World());
    }

    method Undo()
      requires area.Sound() && Open() && Safe()
      modifies area`chunk, area`hwm, area`max, area`sizeInBytes, area`list, area`live, area.heap`regions
      modifies if chunk == null then {} else {chunk}
      ensures area.Sound() && Open() && Safe() && area.View() == old(area.marks[depth])
      ensures area.World() == DoReset(old(area.World()))
    {
      ghost var w := area.World();
      SafeIsEnabled();
      ResetToMark();
      area.StillSound(w, ArenaModel.Reset);
    }

    method Close()
      requires area.Sound() && Open() && Safe()
      modifies area`chunk, area`hwm, area`max, area`sizeInBytes, area`list, area`live, area`marks, area.heap`regions
      modifies if chunk == null then {} else {chunk}
      ensures area.Sound() && area.View() == old(area.marks[depth])
      ensures area.World() == DoRelease(old(area.World()))
    {
      ghost var w := area.World();
      SafeIsEnabled();
      Release();
      area.StillSound(w, ArenaModel.Release);
    }
  }
}
