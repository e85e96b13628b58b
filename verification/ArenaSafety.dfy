/** Every operation keeps the arena sound: chunk list, accounting, placement and separation of live blocks,
    and the validity of every open mark. */
module ArenaSafety {
  import opened Words
  import opened Memory
  import opened ArenaModel

  // ----- chunks -----

  /** A header separates the data of any two chunks. */
  lemma ChunksApart(regions: Regions, a: ChunkRec, b: ChunkRec)
    requires RegionsOk(regions) && a.base != b.base
    requires a.base in regions && regions[a.base] == OVERHEAD + a.len
    requires b.base in regions && regions[b.base] == OVERHEAD + b.len
    ensures a.Top() <= b.base || b.Top() <= a.base
  {
    RegionsApart(regions, a.base, b.base);
  }

  function Range(lo: nat, hi: nat): (r: set<nat>)
    ensures forall a :: a in r <==> lo <= a < hi
    decreases hi
  {
    if lo < hi then Range(lo, hi - 1) + {hi - 1} else {}
  }

  lemma {:induction false} RangeSize(lo: nat, hi: nat)
    requires lo <= hi
    ensures |Range(lo, hi)| == hi - lo
    decreases hi
  {
    if lo < hi {
      RangeSize(lo, hi - 1);
    }
  }

  lemma SubsetSize(a: set<nat>, b: set<nat>)
    requires a <= b
    ensures |a| <= |b|
  {
    assert a + (b - a) == b;
  }

  ghost predicate Covers(cs: seq<ChunkRec>, a: nat) {
    exists i :: 0 <= i < |cs| && cs[i].base <= a < cs[i].Top()
  }

  /** Distinct chunks occupy disjoint address ranges, so their total size fits in the address space. */
  lemma SumBounded(cs: seq<ChunkRec>, regions: Regions)
    requires RegionsOk(regions) && ChunksOk(cs, regions)
    ensures Sum(cs) <= ADDRESS_LIMIT
  {
    var cover := Occupied(cs, regions);
    SubsetSize(cover, Range(0, ADDRESS_LIMIT));
    RangeSize(0, ADDRESS_LIMIT);
  }

  lemma {:induction false} Occupied(cs: seq<ChunkRec>, regions: Regions) returns (cover: set<nat>)
    requires RegionsOk(regions) && ChunksOk(cs, regions)
    ensures |cover| == Sum(cs)
    ensures forall a :: a in cover ==> Covers(cs, a)
    ensures cover <= Range(0, ADDRESS_LIMIT)
  {
    if cs == [] {
      cover := {};
    } else {
      var n := |cs| - 1;
      var k := cs[n];
      DistinctSlice(cs, 0, n);
      var rest := Occupied(cs[..n], regions);
      var mine := Range(k.base, k.Top());
      RangeSize(k.base, k.Top());
      forall a | a in rest ensures a !in mine && Covers(cs, a) {
        CoveredElsewhere(cs, regions, a);
      }
      forall a | a in mine ensures Covers(cs, a) && a < ADDRESS_LIMIT {
        assert cs[n].base <= a < cs[n].Top();
      }
      assert rest !! mine;
      cover := rest + mine;
    }
  }

  lemma CoveredElsewhere(cs: seq<ChunkRec>, regions: Regions, a: nat)
    requires RegionsOk(regions) && ChunksOk(cs, regions) && cs != []
    requires Covers(cs[..|cs| - 1], a)
    ensures Covers(cs, a)
    ensures !(cs[|cs| - 1].base <= a < cs[|cs| - 1].Top())
  {
    var n := |cs| - 1;
    var i :| 0 <= i < n && cs[..n][i].base <= a < cs[..n][i].Top();
    assert cs[i].base <= a < cs[i].Top();
    assert Differ(cs[i], cs[n]);
    ChunksApart(regions, cs[i], cs[n]);
  }

  // ----- Amalloc -----

  ghost predicate AllocAllowed(regions: Regions, s: Area, size: Word, at: nat) {
    size <= MAX_REQUEST && (NeedsChunk(s, size) ==> MallocOk(regions, at, ChunkBytes(size)))
  }

  lemma AreaBelowLimit(s: Area, regions: Regions)
    requires RegionsOk(regions) && AreaOk(s, regions)
    ensures s.hwm <= s.max <= ADDRESS_LIMIT
    ensures Aligned(s.hwm)
  {
    AlignedConstants();
  }

  lemma AppendChunk(cs: seq<ChunkRec>, regions: Regions, k: ChunkRec)
    requires RegionsOk(regions) && ChunksOk(cs, regions) && MallocOk(regions, k.base, OVERHEAD + k.len)
    ensures ChunksOk(cs + [k], regions[k.base := OVERHEAD + k.len])
    ensures Sum(cs + [k]) == Sum(cs) + k.len + OVERHEAD <= ADDRESS_LIMIT
  {
    var all, r := cs + [k], regions[k.base := OVERHEAD + k.len];
    MallocKeepsRegionsOk(regions, k.base, OVERHEAD + k.len);
    AppendDistinct(cs, regions, k);
    assert ChunksOk(all, r);
    SumBounded(all, r);
    assert all[..|cs|] == cs;
  }

  lemma AppendDistinct(cs: seq<ChunkRec>, regions: Regions, k: ChunkRec)
    requires ChunksOk(cs, regions) && k.base !in regions
    ensures Distinct(cs + [k])
  {
    var all := cs + [k];
    forall i, j | 0 <= i < j < |all| ensures Differ(all[i], all[j]) {
      if j < |cs| {
        assert Differ(cs[i], cs[j]);
      }
    }
  }

  /** Without wrap-around a fresh chunk has room for the request that made it necessary. */
  lemma GrowFields(s: Area, x: Word, at: nat, k: ChunkRec)
    requires x <= MAX_REQUEST && k == ChunkRec(at, GrowLen(x)) && k.Top() <= ADDRESS_LIMIT
    ensures x <= k.len
    ensures Grow(s, x, at) == Area(s.chunks + [k], at, k.Bottom() + x, k.Top(), Add(s.sizeInBytes, k.len + OVERHEAD))
  {
  }

  lemma HeaderAligned(at: nat)
    requires Aligned(at)
    ensures Aligned(at + OVERHEAD)
  {
    AlignedConstants();
    AlignedSum(at, 16);
  }

  /** The slow path: a fresh chunk with room for the request. */
  lemma GrowArea(s: Area, regions: Regions, x: Word, at: nat)
    requires RegionsOk(regions) && AreaOk(s, regions) && x <= MAX_REQUEST && Aligned(x)
    requires MallocOk(regions, at, OVERHEAD + GrowLen(x))
    ensures AreaOk(Grow(s, x, at), regions[at := OVERHEAD + GrowLen(x)])
  {
    var k := ChunkRec(at, GrowLen(x));
    var cs := s.chunks + [k];
    AppendChunk(s.chunks, regions, k);
    GrowFields(s, x, at, k);
    HeaderAligned(at);
    AlignedSum(k.Bottom(), x);
    FreshArea(s, cs, regions[at := OVERHEAD + GrowLen(x)], k, x);
  }

  lemma FreshArea(s: Area, cs: seq<ChunkRec>, regions: Regions, k: ChunkRec, x: Word)
    requires ChunksOk(cs, regions) && cs == s.chunks + [k] && Aligned(k.Bottom() + x) && x <= k.len
    requires k.Top() <= ADDRESS_LIMIT && Sum(cs) == Sum(s.chunks) + k.len + OVERHEAD <= ADDRESS_LIMIT
    requires if s.chunks == [] then s == EMPTY else s.sizeInBytes == Sum(s.chunks)
    ensures AreaOk(Area(cs, k.base, k.Bottom() + x, k.Top(), Add(s.sizeInBytes, k.len + OVERHEAD)), regions)
  {
  }

  /** The fast path: the request fits between the high-water mark and the end of the chunk. */
  lemma BumpArea(s: Area, regions: Regions, size: Word)
    requires RegionsOk(regions) && AreaOk(s, regions) && size <= MAX_REQUEST && !NeedsChunk(s, size)
    ensures AreaOk(s.(hwm := Add(s.hwm, ArenaAlign(size))), regions)
    ensures Add(s.hwm, ArenaAlign(size)) == s.hwm + ArenaAlign(size) <= s.max
    ensures size > 0 ==> s.chunks != []
  {
    AreaBelowLimit(s, regions);
    var x := ArenaAlign(size);
    assert s.hwm + x < WORD;
    AlignedSum(s.hwm, x);
    assert s.chunks == [] ==> x == 0;
  }

  /** A request that leaves the fast path is served from the fresh chunk. */
  lemma AmallocSlow(s: Area, regions: Regions, size: Word, at: nat)
    requires size <= MAX_REQUEST && MallocOk(regions, at, ChunkBytes(size)) && NeedsChunk(s, size)
    ensures AtOk(s, size, at)
    ensures AmallocPtr(s, size, at) == at + OVERHEAD && Aligned(at + OVERHEAD)
    ensures at + OVERHEAD + ArenaAlign(size) == Amalloc(s, size, at).hwm
    ensures Amalloc(s, size, at).chunks == s.chunks + [ChunkRec(at, GrowLen(ArenaAlign(size)))]
  {
    AlignTwice(size);
    GrowFields(s, ArenaAlign(size), at, ChunkRec(at, GrowLen(ArenaAlign(size))));
    HeaderAligned(at);
  }

  /** Amalloc keeps the area sound, only ever appends to the chunk list, and hands out a piece of the
      current chunk that ends at the new high-water mark and starts no lower than the old one. */
  lemma AmallocArea(s: Area, regions: Regions, size: Word, at: nat)
    requires RegionsOk(regions) && AreaOk(s, regions) && AllocAllowed(regions, s, size, at)
    ensures AtOk(s, size, at)
    ensures RegionsOk(RegionsAfter(regions, s, size, at))
    ensures AreaOk(Amalloc(s, size, at), RegionsAfter(regions, s, size, at))
    ensures s.chunks <= Amalloc(s, size, at).chunks
    ensures Aligned(AmallocPtr(s, size, at))
    ensures AmallocPtr(s, size, at) + ArenaAlign(size) == Amalloc(s, size, at).hwm <= ADDRESS_LIMIT
    ensures NeedsChunk(s, size) ==> Amalloc(s, size, at).chunks == s.chunks + [ChunkRec(at, GrowLen(ArenaAlign(size)))]
    ensures !NeedsChunk(s, size) ==>
              Amalloc(s, size, at) == s.(hwm := s.hwm + ArenaAlign(size)) && AmallocPtr(s, size, at) == s.hwm
    ensures size > 0 ==> Amalloc(s, size, at).chunks != []
  {
    if NeedsChunk(s, size) {
      AmallocSlow(s, regions, size, at);
      MallocKeepsRegionsOk(regions, at, ChunkBytes(size));
      AlignTwice(size);
      GrowArea(s, regions, ArenaAlign(size), at);
    } else {
      BumpArea(s, regions, size);
    }
    AreaBelowLimit(s, regions);
    AreaBelowLimit(Amalloc(s, size, at), RegionsAfter(regions, s, size, at));
  }

  lemma NewBlockPlaced(s: Area, regions: Regions, size: Word, at: nat, depth: nat)
    requires RegionsOk(regions) && AreaOk(s, regions) && AllocAllowed(regions, s, size, at)
    ensures AtOk(s, size, at)
    ensures Placed(Amalloc(s, size, at), RegionsAfter(regions, s, size, at), NewBlock(s, size, at, depth))
  {
    AmallocArea(s, regions, size, at);
  }

  function NewBlock(s: Area, size: Word, at: nat, depth: nat): Block
    requires AtOk(s, size, at)
  {
    Block(AmallocPtr(s, size, at), size, depth, InChunk(LastIndex(Amalloc(s, size, at))))
  }

  lemma PlacedAfterAmalloc(s: Area, regions: Regions, size: Word, at: nat, b: Block)
    requires RegionsOk(regions) && AreaOk(s, regions) && AllocAllowed(regions, s, size, at)
    requires Placed(s, regions, b)
    ensures AtOk(s, size, at)
    ensures Placed(Amalloc(s, size, at), RegionsAfter(regions, s, size, at), b)
  {
    AmallocArea(s, regions, size, at);
  }

  /** A block lies wholly before the current chunk, wholly after it, or in it below the high-water mark. */
  lemma BeforeHighWater(s: Area, regions: Regions, b: Block)
    requires RegionsOk(regions) && AreaOk(s, regions) && Placed(s, regions, b) && b.size > 0 && s.chunks != []
    ensures var k := s.chunks[|s.chunks| - 1];
            || b.End() <= k.base
            || k.Top() <= b.addr
            || (b.home == InChunk(|s.chunks| - 1) && k.Bottom() <= b.addr < b.End() <= s.hwm)
  {
    var k := s.chunks[|s.chunks| - 1];
    match b.home
    case OnHeap =>
      RegionsApart(regions, b.addr, k.base);
    case InChunk(c) =>
      if c != |s.chunks| - 1 {
        assert Differ(s.chunks[c], k);
        ChunksApart(regions, s.chunks[c], k);
      }
  }

  /** A new block shares no byte with any earlier one. */
  lemma FreshBlockApart(s: Area, regions: Regions, size: Word, at: nat, b: Block, depth: nat)
    requires RegionsOk(regions) && AreaOk(s, regions) && AllocAllowed(regions, s, size, at)
    requires Placed(s, regions, b)
    ensures AtOk(s, size, at)
    ensures Apart(b, NewBlock(s, size, at, depth))
  {
    AmallocArea(s, regions, size, at);
    if b.size > 0 && size > 0 {
      if NeedsChunk(s, size) {
        match b.home
        case OnHeap =>
        case InChunk(c) =>
          assert s.chunks[c].base in regions;
      } else {
        BeforeHighWater(s, regions, b);
      }
    }
  }

  /** Amalloc, binding the new block to any name: the name's former block, if any, is no longer a block. */
  lemma AllocInv(w: World, id: nat, size: Word, at: nat)
    requires Inv(w) && AllocAllowed(w.regions, w.area, size, at)
    ensures AtOk(w.area, size, at)
    ensures Inv(AllocAs(w, id, size, at))
  {
    AmallocArea(w.area, w.regions, size, at);
    AllocBlocks(w, id, size, at);
    AllocMarks(w, id, size, at);
  }

  lemma AllocBlocks(w: World, id: nat, size: Word, at: nat)
    requires Inv(w) && AllocAllowed(w.regions, w.area, size, at)
    ensures AtOk(w.area, size, at)
    ensures BlocksOk(AllocAs(w, id, size, at))
  {
    var v := AllocAs(w, id, size, at);
    var nb := NewBlock(w.area, size, at, |w.marks|);
    forall j | j in v.live ensures Placed(v.area, v.regions, v.live[j]) {
      if j == id {
        NewBlockPlaced(w.area, w.regions, size, at, |w.marks|);
      } else {
        assert Placed(w.area, w.regions, w.live[j]);
        PlacedAfterAmalloc(w.area, w.regions, size, at, w.live[j]);
      }
    }
    forall i, j | i in v.live && j in v.live && i != j ensures Apart(v.live[i], v.live[j]) {
      if i != id && j != id {
        assert Apart(w.live[i], w.live[j]);
      } else {
        var o := if i == id then j else i;
        assert Placed(w.area, w.regions, w.live[o]);
        FreshBlockApart(w.area, w.regions, size, at, w.live[o], |w.marks|);
      }
    }
  }

  lemma AllocMarks(w: World, id: nat, size: Word, at: nat)
    requires Inv(w) && AllocAllowed(w.regions, w.area, size, at)
    ensures AtOk(w.area, size, at)
    ensures MarksOk(AllocAs(w, id, size, at))
  {
    var v := AllocAs(w, id, size, at);
    forall i | 0 <= i < |v.marks| ensures AreaOk(v.marks[i], v.regions) && v.marks[i].chunks <= v.area.chunks {
      OldAreaAfterAmalloc(w.marks[i], w.area, w.regions, size, at);
    }
    forall j, i | j in v.live && v.live[j].depth <= i < |v.marks| ensures Placed(v.marks[i], v.regions, v.live[j]) {
      assert j != id;
      OldPlacedAfterAmalloc(w.marks[i], w.area, w.regions, size, at, w.live[j]);
    }
  }

  /** A saved area, and what is placed in it, are not touched by later allocations. */
  lemma OldAreaAfterAmalloc(m: Area, s: Area, regions: Regions, size: Word, at: nat)
    requires RegionsOk(regions) && AreaOk(s, regions) && AllocAllowed(regions, s, size, at)
    requires AreaOk(m, regions) && m.chunks <= s.chunks
    ensures AtOk(s, size, at)
    ensures AreaOk(m, RegionsAfter(regions, s, size, at)) && m.chunks <= Amalloc(s, size, at).chunks
  {
    AmallocArea(s, regions, size, at);
  }

  lemma OldPlacedAfterAmalloc(m: Area, s: Area, regions: Regions, size: Word, at: nat, b: Block)
    requires AllocAllowed(regions, s, size, at) && Placed(m, regions, b)
    ensures Placed(m, RegionsAfter(regions, s, size, at), b)
  {
  }

  // ----- Afree -----

  lemma FreeArea(s: Area, regions: Regions, b: Block)
    requires RegionsOk(regions) && AreaOk(s, regions) && Placed(s, regions, b) && b.home.InChunk?
    ensures AreaOk(Afree(s, b.addr, b.size), regions) && Afree(s, b.addr, b.size).chunks == s.chunks
  {
    AreaBelowLimit(s, regions);
    if Afree(s, b.addr, b.size) != s {
      assert b.size > 0;
      BeforeHighWater(s, regions, b);
    }
  }

  lemma PlacedAfterFree(s: Area, regions: Regions, b: Block, c: Block)
    requires RegionsOk(regions) && AreaOk(s, regions) && Placed(s, regions, b) && b.home.InChunk?
    requires Placed(s, regions, c) && Apart(c, b)
    ensures Placed(Afree(s, b.addr, b.size), regions, c)
  {
    AreaBelowLimit(s, regions);
    if Afree(s, b.addr, b.size) != s && c.size > 0 {
      BeforeHighWater(s, regions, b);
      BeforeHighWater(s, regions, c);
    }
  }

  /** Freeing the last block brings the high-water mark down to it; every other block stays below. */
  lemma FreeInv(w: World, id: nat)
    requires Inv(w) && id in w.live && w.live[id].home.InChunk?
    ensures Inv(DoFree(w, id))
  {
    var b := w.live[id];
    var v := DoFree(w, id);
    assert Placed(w.area, w.regions, b);
    FreeArea(w.area, w.regions, b);
    forall j | j in v.live ensures Placed(v.area, v.regions, v.live[j]) {
      assert Placed(w.area, w.regions, w.live[j]) && Apart(w.live[j], b);
      PlacedAfterFree(w.area, w.regions, b, w.live[j]);
    }
    forall i, j | i in v.live && j in v.live && i != j ensures Apart(v.live[i], v.live[j]) {
      assert Apart(w.live[i], w.live[j]);
    }
    forall j, i | j in v.live && v.live[j].depth <= i < |v.marks| ensures Placed(v.marks[i], v.regions, v.live[j]) {
      assert Placed(w.marks[i], w.regions, w.live[j]);
    }
  }

  // ----- Arealloc -----

  /** On the copy path the old block never ends at the new high-water mark, so the Afree that follows
      the copy does nothing. (An empty old block may sit at the mark; lowering the mark to it is no change.) */
  lemma MoveNeverFrees(s: Area, regions: Regions, b: Block, size: Word, at: nat)
    requires RegionsOk(regions) && AreaOk(s, regions) && Placed(s, regions, b)
    requires AllocAllowed(regions, s, size, at) && b.home.InChunk?
    requires ArenaAlign(b.size) < ArenaAlign(size)
    ensures AtOk(s, size, at)
    ensures Afree(Amalloc(s, size, at), b.addr, ArenaAlign(b.size)) == Amalloc(s, size, at)
    ensures b.size > 0 ==> b.End() != Amalloc(s, size, at).hwm
  {
    if b.size > 0 {
      MovedBlockEnds(s, regions, b, size, at);
    }
    AlignTwice(b.size);
    assert b.addr + ArenaAlign(b.size) < WORD;
  }

  lemma MovedBlockEnds(s: Area, regions: Regions, b: Block, size: Word, at: nat)
    requires RegionsOk(regions) && AreaOk(s, regions) && Placed(s, regions, b)
    requires AllocAllowed(regions, s, size, at) && b.home.InChunk? && b.size > 0 && size > 0
    ensures AtOk(s, size, at)
    ensures b.End() != Amalloc(s, size, at).hwm
  {
    AmallocArea(s, regions, size, at);
    PlacedAfterAmalloc(s, regions, size, at, b);
    FreshBlockApart(s, regions, size, at, b, 0);
    var s' := Amalloc(s, size, at);
    BeforeHighWater(s', RegionsAfter(regions, s, size, at), b);
  }

  /** Keeping the block where it is, with a footprint that does not grow. */
  lemma KeepInv(w: World, id: nat, size: Word)
    requires Inv(w) && id in w.live && w.live[id].home.InChunk?
    requires size <= MAX_REQUEST && ArenaAlign(size) <= ArenaAlign(w.live[id].size)
    ensures Inv(Kept(w, id, size))
  {
    KeepBlocks(w, id, size);
    KeepMarks(w, id, size);
  }

  /** The block resized in place, within its footprint. */
  function Kept(w: World, id: nat, size: Word): World
    requires id in w.live
  {
    w.(live := w.live[id := w.live[id].(size := size)])
  }

  lemma KeepBlocks(w: World, id: nat, size: Word)
    requires Inv(w) && id in w.live && w.live[id].home.InChunk?
    requires size <= MAX_REQUEST && ArenaAlign(size) <= ArenaAlign(w.live[id].size)
    ensures BlocksOk(Kept(w, id, size))
  {
    var v := Kept(w, id, size);
    forall i, j | i in v.live && j in v.live && i != j ensures Apart(v.live[i], v.live[j]) {
      assert Apart(w.live[i], w.live[j]);
    }
    forall j | j in v.live ensures Placed(v.area, v.regions, v.live[j]) {
      assert Placed(w.area, w.regions, w.live[j]);
      if j == id {
        SmallerPlaced(w.area, w.regions, w.live[id], size);
      }
    }
  }

  lemma KeepMarks(w: World, id: nat, size: Word)
    requires Inv(w) && id in w.live && w.live[id].home.InChunk?
    requires size <= MAX_REQUEST && ArenaAlign(size) <= ArenaAlign(w.live[id].size)
    ensures MarksOk(Kept(w, id, size))
  {
    var v := Kept(w, id, size);
    forall j, i | j in v.live && v.live[j].depth <= i < |v.marks| ensures Placed(v.marks[i], v.regions, v.live[j]) {
      assert Placed(w.marks[i], w.regions, w.live[j]);
      if j == id {
        SmallerPlaced(w.marks[i], w.regions, w.live[id], size);
      }
    }
  }

  lemma SmallerPlaced(s: Area, regions: Regions, b: Block, size: Word)
    requires Placed(s, regions, b) && b.home.InChunk? && size <= MAX_REQUEST && ArenaAlign(size) <= ArenaAlign(b.size)
    ensures Placed(s, regions, b.(size := size))
  {
  }

  function Extended(w: World, id: nat, size: Word): World
    requires id in w.live && w.area.hwm + ArenaAlign(size) < WORD + ArenaAlign(w.live[id].size)
    requires ArenaAlign(w.live[id].size) <= ArenaAlign(size)
  {
    var b := w.live[id];
    w.(area := w.area.(hwm := w.area.hwm + (ArenaAlign(size) - ArenaAlign(b.size))),
       live := w.live[id := Block(b.addr, size, |w.marks|, InChunk(LastIndex(w.area)))])
  }

  /** The in-place path is taken by a block that ends at the high-water mark of the current chunk, with
      room behind it. */
  lemma ExtendPath(w: World, id: nat, size: Word)
    requires Inv(w) && id in w.live && w.live[id].home.InChunk? && size <= MAX_REQUEST
    requires PathOf(w.area, w.live[id].addr, w.live[id].size, size) == Extend
    ensures LastBlock(w, id) && ArenaAlign(w.live[id].size) < ArenaAlign(size)
    ensures w.area.hwm + (ArenaAlign(size) - ArenaAlign(w.live[id].size)) <= w.area.max <= ADDRESS_LIMIT
  {
    var b := w.live[id];
    assert Placed(w.area, w.regions, b);
    AreaBelowLimit(w.area, w.regions);
    if b.size > 0 {
      BeforeHighWater(w.area, w.regions, b);
    }
  }

  /** Extending the last block in place. */
  lemma ExtendInv(w: World, id: nat, size: Word)
    requires Inv(w) && id in w.live && w.live[id].home.InChunk? && size <= MAX_REQUEST
    requires PathOf(w.area, w.live[id].addr, w.live[id].size, size) == Extend
    ensures Inv(DoRealloc(w, id, size, 0))
  {
    var b := w.live[id];
    ExtendPath(w, id, size);
    AlignedDifference(ArenaAlign(b.size), ArenaAlign(size));
    AlignedSum(w.area.hwm, ArenaAlign(size) - ArenaAlign(b.size));
    ExtendArea(w.area, w.regions, w.area.hwm + (ArenaAlign(size) - ArenaAlign(b.size)));
    ExtendBlocks(w, id, size);
    ExtendMarks(w, id, size);
    assert DoRealloc(w, id, size, 0) == Extended(w, id, size);
  }

  /** The high-water mark may move up to the end of the chunk. */
  lemma ExtendArea(s: Area, regions: Regions, hwm: Word)
    requires AreaOk(s, regions) && s.hwm <= hwm <= s.max && Aligned(hwm)
    ensures AreaOk(s.(hwm := hwm), regions)
  {
  }

  ghost predicate LastBlock(w: World, id: nat) {
    && id in w.live && w.live[id].home.InChunk? && w.area.chunks != []
    && w.live[id].End() == w.area.hwm
    && w.area.chunks[|w.area.chunks| - 1].Bottom() <= w.live[id].addr
  }

  lemma ExtendBlocks(w: World, id: nat, size: Word)
    requires Inv(w) && LastBlock(w, id) && size <= MAX_REQUEST && ArenaAlign(w.live[id].size) < ArenaAlign(size)
    requires w.area.hwm + (ArenaAlign(size) - ArenaAlign(w.live[id].size)) <= w.area.max
    requires w.area.max <= ADDRESS_LIMIT
    ensures BlocksOk(Extended(w, id, size))
  {
    var b := w.live[id];
    var v := Extended(w, id, size);
    assert Placed(w.area, w.regions, b);
    assert Placed(v.area, v.regions, v.live[id]);
    forall j | j in v.live && j != id
      ensures Placed(v.area, v.regions, v.live[j]) && Apart(v.live[j], v.live[id]) && Apart(v.live[id], v.live[j])
    {
      ApartAfterExtend(w, id, size, j);
    }
    forall i, j | i in v.live && j in v.live && i != j ensures Apart(v.live[i], v.live[j]) {
      if i != id && j != id {
        assert Apart(w.live[i], w.live[j]);
      }
    }
  }

  lemma ApartAfterExtend(w: World, id: nat, size: Word, j: nat)
    requires Inv(w) && LastBlock(w, id) && size <= MAX_REQUEST && ArenaAlign(w.live[id].size) < ArenaAlign(size)
    requires w.area.hwm + (ArenaAlign(size) - ArenaAlign(w.live[id].size)) <= w.area.max <= ADDRESS_LIMIT
    requires j in w.live && j != id
    ensures var v := Extended(w, id, size);
            && Placed(v.area, v.regions, v.live[j])
            && Apart(v.live[j], v.live[id]) && Apart(v.live[id], v.live[j])
  {
    assert Placed(w.area, w.regions, w.live[id]);
    assert Placed(w.area, w.regions, w.live[j]) && Apart(w.live[j], w.live[id]);
    if w.live[j].size > 0 {
      BeforeHighWater(w.area, w.regions, w.live[j]);
    }
  }

  lemma ExtendMarks(w: World, id: nat, size: Word)
    requires Inv(w) && id in w.live && ArenaAlign(w.live[id].size) <= ArenaAlign(size)
    requires w.area.hwm + ArenaAlign(size) < WORD + ArenaAlign(w.live[id].size)
    ensures MarksOk(Extended(w, id, size))
  {
    var v := Extended(w, id, size);
    forall j, i | j in v.live && v.live[j].depth <= i < |v.marks| ensures Placed(v.marks[i], v.regions, v.live[j]) {
      assert Placed(w.marks[i], w.regions, w.live[j]);
    }
  }

  /** Copying to a fresh block: the result is Amalloc's world with the block renamed and resized. */
  lemma MoveInv(w: World, id: nat, size: Word, at: nat)
    requires Inv(w) && Enabled(w, Realloc(id, size, at))
    requires PathOf(w.area, w.live[id].addr, w.live[id].size, size) == Move
    ensures ReallocAtOk(w.area, w.live[id].addr, w.live[id].size, size, at) && AtOk(w.area, ArenaAlign(size), at)
    ensures DoRealloc(w, id, size, at).area == Amalloc(w.area, ArenaAlign(size), at)
    ensures Inv(DoRealloc(w, id, size, at))
  {
    var b := w.live[id];
    var y := ArenaAlign(size);
    assert Placed(w.area, w.regions, b);
    AlignTwice(size);
    MoveNeverFrees(w.area, w.regions, b, y, at);
    MoveIsAlloc(w, id, size, at);
    AllocInv(w, id, y, at);
    var u := AllocAs(w, id, y, at);
    KeepInv(u, id, size);
    MemoryIsFree(u.(live := u.live[id := u.live[id].(size := size)]), DoRealloc(w, id, size, at).mem);
  }

  lemma MoveIsAlloc(w: World, id: nat, size: Word, at: nat)
    requires id in w.live && AtOk(w.area, ArenaAlign(size), at) && ArenaAlign(ArenaAlign(size)) == ArenaAlign(size)
    requires PathOf(w.area, w.live[id].addr, w.live[id].size, size) == Move
    requires Afree(Amalloc(w.area, ArenaAlign(size), at), w.live[id].addr, ArenaAlign(w.live[id].size)) ==
               Amalloc(w.area, ArenaAlign(size), at)
    requires id < w.next
    ensures ReallocAtOk(w.area, w.live[id].addr, w.live[id].size, size, at)
    ensures var u := AllocAs(w, id, ArenaAlign(size), at);
            var v := DoRealloc(w, id, size, at);
            v == u.(mem := v.mem, live := u.live[id := u.live[id].(size := size)])
  {
    var u := AllocAs(w, id, ArenaAlign(size), at);
    var v := DoRealloc(w, id, size, at);
    var nb := u.live[id].(size := size);
    MoveFields(w, id, size, at);
    assert v.live == w.live[id := nb];
    OverwriteTwice(w.live, id, u.live[id], nb);
    assert v == u.(mem := v.mem, live := u.live[id := nb]);
  }

  lemma MoveFields(w: World, id: nat, size: Word, at: nat)
    requires id in w.live && AtOk(w.area, ArenaAlign(size), at) && ArenaAlign(ArenaAlign(size)) == ArenaAlign(size)
    requires PathOf(w.area, w.live[id].addr, w.live[id].size, size) == Move
    requires Afree(Amalloc(w.area, ArenaAlign(size), at), w.live[id].addr, ArenaAlign(w.live[id].size)) ==
               Amalloc(w.area, ArenaAlign(size), at)
    requires id < w.next
    ensures ReallocAtOk(w.area, w.live[id].addr, w.live[id].size, size, at)
    ensures var u := AllocAs(w, id, ArenaAlign(size), at);
            var v := DoRealloc(w, id, size, at);
            v.area == u.area && v.regions == u.regions && v.next == u.next && v.live[id] == u.live[id].(size := size)
  {
    var b, y := w.live[id], ArenaAlign(size);
    assert Arealloc(w.area, b.addr, b.size, size, at) == Amalloc(w.area, y, at);
    assert AreallocPtr(w.area, b.addr, b.size, size, at) == AmallocPtr(w.area, y, at);
    assert ChunkBytes(y) == ChunkBytes(size);
    assert DepthAfter(b.depth, b.size, size, |w.marks|) == |w.marks|;
  }

  lemma OverwriteTwice(m: map<nat, Block>, id: nat, a: Block, b: Block)
    ensures m[id := a][id := b] == m[id := b]
  {
  }

  /** The invariant says nothing about memory contents. */
  lemma MemoryIsFree(w: World, m: Mem)
    requires Inv(w)
    ensures Inv(w.(mem := m))
  {
    var v := w.(mem := m);
    assert BlocksOk(v) by {
      forall j | j in v.live ensures Placed(v.area, v.regions, v.live[j]) {
        assert Placed(w.area, w.regions, w.live[j]);
      }
      forall i, j | i in v.live && j in v.live && i != j ensures Apart(v.live[i], v.live[j]) {
        assert Apart(w.live[i], w.live[j]);
      }
    }
    assert MarksOk(v) by {
      forall j, i | j in v.live && v.live[j].depth <= i < |v.marks| ensures Placed(v.marks[i], v.regions, v.live[j]) {
        assert Placed(w.marks[i], w.regions, w.live[j]);
      }
    }
  }

  /** An empty block may be counted as old as one likes. */
  lemma EmptyBlockDepth(w: World, id: nat, depth: nat)
    requires Inv(w) && id in w.live && w.live[id].size == 0 && w.live[id].home.InChunk? && depth <= |w.marks|
    ensures Inv(w.(live := w.live[id := w.live[id].(depth := depth)]))
  {
    var v := w.(live := w.live[id := w.live[id].(depth := depth)]);
    assert Placed(w.area, w.regions, w.live[id]);
    forall i, j | i in v.live && j in v.live && i != j ensures Apart(v.live[i], v.live[j]) {
      assert Apart(w.live[i], w.live[j]);
    }
    forall j | j in v.live ensures Placed(v.area, v.regions, v.live[j]) {
      assert Placed(w.area, w.regions, w.live[j]);
    }
    forall j, i | j in v.live && v.live[j].depth <= i < |v.marks| ensures Placed(v.marks[i], v.regions, v.live[j]) {
      if j != id {
        assert Placed(w.marks[i], w.regions, w.live[j]);
      }
    }
  }

  lemma FreshInv(w: World, id: nat, size: Word, at: nat)
    requires Inv(w) && Enabled(w, Realloc(id, size, at))
    requires PathOf(w.area, w.live[id].addr, w.live[id].size, size) == Fresh
    ensures Inv(DoRealloc(w, id, size, at))
  {
    var b := w.live[id];
    assert Placed(w.area, w.regions, b);
    AllocInv(w, id, size, at);
    FreshIsAlloc(w, id, size, at);
    if size == 0 {
      EmptyBlockDepth(AllocAs(w, id, size, at), id, b.depth);
    }
  }

  lemma FreshIsAlloc(w: World, id: nat, size: Word, at: nat)
    requires id in w.live && w.live[id].addr == 0 && w.live[id].size == 0 && size <= MAX_REQUEST
    requires id < w.next && AtOk(w.area, size, at)
    ensures var u := AllocAs(w, id, size, at);
            DoRealloc(w, id, size, at) ==
              if size == 0 then u.(live := u.live[id := u.live[id].(depth := w.live[id].depth)]) else u
  {
    var u := AllocAs(w, id, size, at);
    assert ArenaAlign(0) == 0;
    if size == 0 {
      assert w.live[id := Block(u.live[id].addr, size, w.live[id].depth, u.live[id].home)]
          == u.live[id := u.live[id].(depth := w.live[id].depth)];
    }
  }

  lemma ReallocInv(w: World, id: nat, size: Word, at: nat)
    requires Inv(w) && Enabled(w, Realloc(id, size, at))
    ensures Inv(DoRealloc(w, id, size, at))
  {
    var b := w.live[id];
    match PathOf(w.area, b.addr, b.size, size)
    case Fresh =>
      FreshInv(w, id, size, at);
    case Keep =>
      KeepInv(w, id, size);
    case Extend =>
      ExtendInv(w, id, size);
      assert DoRealloc(w, id, size, at) == DoRealloc(w, id, size, 0);
    case Move =>
      MoveInv(w, id, size, at);
  }

  // ----- marks -----

  lemma DistinctSlice(cs: seq<ChunkRec>, lo: nat, hi: nat)
    requires Distinct(cs) && lo <= hi <= |cs|
    ensures Distinct(cs[lo..hi])
  {
    var part := cs[lo..hi];
    forall i, j | 0 <= i < j < |part| ensures Differ(part[i], part[j]) {
      assert Differ(cs[lo + i], cs[lo + j]);
    }
  }

  lemma {:induction false} SplitAtMark(kept: seq<ChunkRec>, rest: seq<ChunkRec>)
    requires kept != []
    requires Distinct(kept)
    ensures Upto(kept + rest, kept[|kept| - 1].base) == kept
    ensures After(kept + rest, kept[|kept| - 1].base) == rest
  {
    var all := kept + rest;
    assert all[0] == kept[0];
    if |kept| > 1 {
      assert all[1..] == kept[1..] + rest;
      assert kept[1..][|kept| - 2] == kept[|kept| - 1];
      DistinctSlice(kept, 1, |kept|);
      assert Differ(kept[0], kept[|kept| - 1]);
      SplitAtMark(kept[1..], rest);
      assert kept == [kept[0]] + kept[1..];
    } else {
      assert all[1..] == rest;
    }
  }

  /** A saved sound area that is a prefix of the present one is restored exactly, and exactly the chunks
      appended since are freed. With no chunk saved this needs the area to be without chunks still. */
  lemma ResetRestores(saved: Area, s: Area, regions: Regions)
    requires RegionsOk(regions) && AreaOk(saved, regions) && saved.chunks <= s.chunks
    requires saved.current != 0 || s.chunks == []
    ensures ResetToMark(s, MarkOf(saved)) == saved
    ensures s.chunks == saved.chunks + Freed(s, MarkOf(saved))
  {
    if saved.chunks != [] {
      var rest := s.chunks[|saved.chunks|..];
      assert s.chunks == saved.chunks + rest;
      SplitAtMark(saved.chunks, rest);
    }
  }

  /** Chunks of a list with distinct bases: the bases of a suffix are not those of the prefix before it. */
  lemma SuffixBases(kept: seq<ChunkRec>, gone: seq<ChunkRec>, i: nat)
    requires i < |kept|
    requires Distinct(kept + gone)
    ensures kept[i].base !in Bases(gone)
  {
    InBases(gone, kept[i].base);
    forall j | 0 <= j < |gone| ensures gone[j].base != kept[i].base {
      assert Differ((kept + gone)[i], (kept + gone)[|kept| + j]);
    }
  }

  lemma HeapBlockKept(kept: seq<ChunkRec>, gone: seq<ChunkRec>, a: nat)
    requires forall i :: 0 <= i < |kept + gone| ==> (kept + gone)[i].base != a
    ensures a !in Bases(gone)
  {
    InBases(gone, a);
    forall j | 0 <= j < |gone| ensures gone[j].base != a {
      assert (kept + gone)[|kept| + j] == gone[j];
    }
  }

  /** What is placed in a saved area stays so when the chunks appended after it are freed. */
  lemma PlacedAfterReset(w: World, saved: Area, gone: seq<ChunkRec>, s: Area, b: Block)
    requires RegionsOk(w.regions) && AreaOk(w.area, w.regions) && w.area.chunks == saved.chunks + gone
    requires Placed(w.area, w.regions, b) && Placed(s, w.regions, b)
    ensures Placed(s, w.regions - Bases(gone), b)
  {
    if b.home.OnHeap? {
      HeapBlockKept(saved.chunks, gone, b.addr);
    }
  }

  lemma AreaAfterReset(w: World, saved: Area, gone: seq<ChunkRec>, s: Area)
    requires RegionsOk(w.regions) && AreaOk(w.area, w.regions) && w.area.chunks == saved.chunks + gone
    requires AreaOk(s, w.regions) && s.chunks <= w.area.chunks && |s.chunks| <= |saved.chunks|
    ensures AreaOk(s, w.regions - Bases(gone)) && s.chunks <= saved.chunks
  {
    assert s.chunks == w.area.chunks[..|s.chunks|] == saved.chunks[..|s.chunks|];
    forall c | 0 <= c < |s.chunks| ensures s.chunks[c].base !in Bases(gone) {
      SuffixBases(saved.chunks, gone, c);
    }
  }

  /** Undoing the innermost mark gives back the area saved there, and everything older stays sound. */
  lemma ResetInv(w: World)
    requires Inv(w) && w.marks != [] && ResetSafe(w)
    ensures DoReset(w).area == w.marks[|w.marks| - 1]
    ensures Inv(DoReset(w))
  {
    var gone := ResetSplit(w);
    FreeKeepsRegionsOk(w.regions, Bases(gone));
    ResetMarks(w, gone);
    ResetBlocks(w, gone);
    assert AreaOk(DoReset(w).marks[|w.marks| - 1], DoReset(w).regions);
  }

  lemma ResetSplit(w: World) returns (gone: seq<ChunkRec>)
    requires Inv(w) && w.marks != [] && ResetSafe(w)
    ensures w.area.chunks == w.marks[|w.marks| - 1].chunks + gone
    ensures DoReset(w).area == w.marks[|w.marks| - 1] && DoReset(w).regions == w.regions - Bases(gone)
  {
    var saved := w.marks[|w.marks| - 1];
    OlderMark(w, |w.marks| - 1);
    ResetRestores(saved, w.area, w.regions);
    gone := Freed(w.area, MarkOf(saved));
  }

  lemma ResetMarks(w: World, gone: seq<ChunkRec>)
    requires Inv(w) && w.marks != [] && w.area.chunks == w.marks[|w.marks| - 1].chunks + gone
    requires DoReset(w).area == w.marks[|w.marks| - 1] && DoReset(w).regions == w.regions - Bases(gone)
    ensures MarksOk(DoReset(w))
  {
    ResetAreas(w, gone);
    ResetBlocks(w, gone);
  }

  lemma ResetAreas(w: World, gone: seq<ChunkRec>)
    requires Inv(w) && w.marks != [] && w.area.chunks == w.marks[|w.marks| - 1].chunks + gone
    ensures forall i {:trigger w.marks[i]} :: 0 <= i < |w.marks| ==>
              AreaOk(w.marks[i], w.regions - Bases(gone)) && w.marks[i].chunks <= w.marks[|w.marks| - 1].chunks
  {
    forall i | 0 <= i < |w.marks|
      ensures AreaOk(w.marks[i], w.regions - Bases(gone)) && w.marks[i].chunks <= w.marks[|w.marks| - 1].chunks
    {
      OlderMark(w, i);
      AreaAfterReset(w, w.marks[|w.marks| - 1], gone, w.marks[i]);
    }
  }

  lemma OlderMark(w: World, i: nat)
    requires MarksOk(w) && i < |w.marks|
    ensures AreaOk(w.marks[i], w.regions) && w.marks[i].chunks <= w.area.chunks
    ensures |w.marks[i].chunks| <= |w.marks[|w.marks| - 1].chunks|
  {
  }

  lemma ResetBlocks(w: World, gone: seq<ChunkRec>)
    requires Inv(w) && w.marks != []
    requires w.area.chunks == w.marks[|w.marks| - 1].chunks + gone
    requires DoReset(w).area == w.marks[|w.marks| - 1] && DoReset(w).regions == w.regions - Bases(gone)
    ensures BlocksOk(DoReset(w))
    ensures var v := DoReset(w);
            forall id, i {:trigger Placed(v.marks[i], v.regions, v.live[id])} ::
              id in v.live && v.live[id].depth <= i < |v.marks| ==> Placed(v.marks[i], v.regions, v.live[id])
  {
    var d := |w.marks| - 1;
    var saved := w.marks[d];
    var v := DoReset(w);
    forall j, i | j in v.live && v.live[j].depth <= i < |v.marks| ensures Placed(v.marks[i], v.regions, v.live[j]) {
      assert Placed(w.marks[i], w.regions, w.live[j]) && Placed(w.area, w.regions, w.live[j]);
      PlacedAfterReset(w, saved, gone, w.marks[i], w.live[j]);
    }
    forall j | j in v.live ensures Placed(v.area, v.regions, v.live[j]) {
      assert Placed(v.marks[d], v.regions, v.live[j]);
    }
    forall i, j | i in v.live && j in v.live && i != j ensures Apart(v.live[i], v.live[j]) {
      assert Apart(w.live[i], w.live[j]);
    }
  }

  lemma ReleaseInv(w: World)
    requires Inv(w) && w.marks != [] && ResetSafe(w)
    ensures DoRelease(w).area == w.marks[|w.marks| - 1]
    ensures Inv(DoRelease(w))
  {
    ResetInv(w);
    var u, v := DoReset(w), DoRelease(w);
    forall j | j in v.live ensures Placed(v.area, v.regions, v.live[j]) {
      assert Placed(u.area, u.regions, u.live[j]);
    }
    forall i, j | i in v.live && j in v.live && i != j ensures Apart(v.live[i], v.live[j]) {
      assert Apart(u.live[i], u.live[j]);
    }
    forall i | 0 <= i < |v.marks| ensures AreaOk(v.marks[i], v.regions) && v.marks[i].chunks <= v.area.chunks {
      assert v.marks[i] == u.marks[i];
    }
    forall j, i | j in v.live && v.live[j].depth <= i < |v.marks| ensures Placed(v.marks[i], v.regions, v.live[j]) {
      assert Placed(u.marks[i], u.regions, u.live[j]);
    }
  }

  lemma PushInv(w: World)
    requires Inv(w)
    ensures Inv(w.(marks := w.marks + [w.area]))
  {
    var v := w.(marks := w.marks + [w.area]);
    forall j | j in v.live ensures Placed(v.area, v.regions, v.live[j]) {
      assert Placed(w.area, w.regions, w.live[j]);
    }
    forall i, j | i in v.live && j in v.live && i != j ensures Apart(v.live[i], v.live[j]) {
      assert Apart(w.live[i], w.live[j]);
    }
    forall i | 0 <= i < |v.marks|
      ensures AreaOk(v.marks[i], v.regions) && v.marks[i].chunks <= v.area.chunks
      ensures |v.marks[i].chunks| <= |w.area.chunks|
    {
      if i < |w.marks| {
        assert AreaOk(w.marks[i], w.regions);
      }
    }
    forall j, i | j in v.live && v.live[j].depth <= i < |v.marks| ensures Placed(v.marks[i], v.regions, v.live[j]) {
      if i < |w.marks| {
        assert Placed(w.marks[i], w.regions, w.live[j]);
      } else {
        assert Placed(w.area, w.regions, w.live[j]);
      }
    }
  }

  // ----- the C heap -----

  lemma PlacedAfterMalloc(s: Area, regions: Regions, at: nat, n: nat, b: Block)
    requires RegionsOk(regions) && MallocOk(regions, at, n) && Placed(s, regions, b)
    ensures Placed(s, regions[at := n], b)
  {
  }

  lemma HeapBlockApart(s: Area, regions: Regions, at: nat, size: Word, b: Block)
    requires RegionsOk(regions) && AreaOk(s, regions) && MallocOk(regions, at, size) && Placed(s, regions, b)
    ensures Apart(b, Block(at, size, 0, OnHeap)) && Apart(Block(at, size, 0, OnHeap), b)
  {
    if b.home.InChunk? && b.size > 0 {
      assert s.chunks[b.home.index].base in regions;
    }
  }

  lemma HeapAllocInv(w: World, size: Word, at: nat)
    requires Inv(w) && size <= MAX_REQUEST && MallocOk(w.regions, at, size)
    ensures Inv(DoHeapAlloc(w, size, at))
  {
    MallocKeepsRegionsOk(w.regions, at, size);
    HeapAllocBlocks(w, size, at);
    HeapAllocMarks(w, size, at);
  }

  lemma NewHeapBlockPlaced(s: Area, regions: Regions, size: Word, at: nat)
    requires AreaOk(s, regions) && size <= MAX_REQUEST && MallocOk(regions, at, size)
    ensures AreaOk(s, regions[at := size]) && Placed(s, regions[at := size], Block(at, size, 0, OnHeap))
  {
  }

  lemma HeapAllocBlocks(w: World, size: Word, at: nat)
    requires Inv(w) && size <= MAX_REQUEST && MallocOk(w.regions, at, size)
    ensures AreaOk(w.area, w.regions[at := size]) && BlocksOk(DoHeapAlloc(w, size, at))
  {
    var v := DoHeapAlloc(w, size, at);
    NewHeapBlockPlaced(w.area, w.regions, size, at);
    forall j | j in v.live ensures Placed(v.area, v.regions, v.live[j]) {
      if j != w.next {
        assert Placed(w.area, w.regions, w.live[j]);
        PlacedAfterMalloc(w.area, w.regions, at, size, w.live[j]);
      }
    }
    forall i, j | i in v.live && j in v.live && i != j ensures Apart(v.live[i], v.live[j]) {
      if i != w.next && j != w.next {
        assert Apart(w.live[i], w.live[j]);
      } else {
        var o := if i == w.next then j else i;
        assert Placed(w.area, w.regions, w.live[o]);
        HeapBlockApart(w.area, w.regions, at, size, w.live[o]);
      }
    }
  }

  lemma HeapAllocMarks(w: World, size: Word, at: nat)
    requires Inv(w) && size <= MAX_REQUEST && MallocOk(w.regions, at, size)
    ensures MarksOk(DoHeapAlloc(w, size, at))
  {
    var v := DoHeapAlloc(w, size, at);
    forall i | 0 <= i < |v.marks|
      ensures AreaOk(v.marks[i], v.regions) && v.marks[i].chunks <= v.area.chunks
      ensures forall j :: j in v.live && v.live[j].depth <= i ==> Placed(v.marks[i], v.regions, v.live[j])
    {
      assert AreaOk(w.marks[i], w.regions);
      NewHeapBlockPlaced(w.marks[i], w.regions, size, at);
      forall j | j in v.live && v.live[j].depth <= i ensures Placed(v.marks[i], v.regions, v.live[j]) {
        if j != w.next {
          assert Placed(w.marks[i], w.regions, w.live[j]);
          PlacedAfterMalloc(w.marks[i], w.regions, at, size, w.live[j]);
        }
      }
    }
  }

  lemma PlacedAfterHeapFree(s: Area, regions: Regions, gone: Block, b: Block)
    requires Placed(s, regions, gone) && gone.home.OnHeap? && Placed(s, regions, b) && Apart(gone, b)
    ensures Placed(s, regions - {gone.addr}, b)
  {
  }

  lemma AreaAfterHeapFree(s: Area, regions: Regions, gone: Block)
    requires AreaOk(s, regions) && Placed(s, regions, gone) && gone.home.OnHeap?
    ensures AreaOk(s, regions - {gone.addr})
  {
  }

  lemma HeapFreeInv(w: World, id: nat)
    requires Inv(w) && id in w.live && w.live[id].home.OnHeap?
    ensures Inv(DoHeapFree(w, id))
  {
    var b := w.live[id];
    var v := DoHeapFree(w, id);
    FreeKeepsRegionsOk(w.regions, {b.addr});
    assert Placed(w.area, w.regions, b);
    AreaAfterHeapFree(w.area, w.regions, b);
    forall j | j in v.live ensures Placed(v.area, v.regions, v.live[j]) {
      assert Placed(w.area, w.regions, w.live[j]) && Apart(b, w.live[j]);
      PlacedAfterHeapFree(w.area, w.regions, b, w.live[j]);
    }
    forall i, j | i in v.live && j in v.live && i != j ensures Apart(v.live[i], v.live[j]) {
      assert Apart(w.live[i], w.live[j]);
    }
    forall i | 0 <= i < |v.marks|
      ensures AreaOk(v.marks[i], v.regions) && v.marks[i].chunks <= v.area.chunks
      ensures forall j :: j in v.live && v.live[j].depth <= i ==> Placed(v.marks[i], v.regions, v.live[j])
    {
      assert AreaOk(w.marks[i], w.regions) && Placed(w.marks[i], w.regions, w.live[id]);
      AreaAfterHeapFree(w.marks[i], w.regions, b);
      forall j | j in v.live && v.live[j].depth <= i ensures Placed(v.marks[i], v.regions, v.live[j]) {
        assert Placed(w.marks[i], w.regions, w.live[j]) && Apart(b, w.live[j]);
        PlacedAfterHeapFree(w.marks[i], w.regions, b, w.live[j]);
      }
    }
  }

  /** Destroying the contents leaves a sound process exactly when no open mark saved a chunk: a mark that did
      would put a freed one back. */
  lemma DestructSoundExactly(w: World)
    requires Inv(w)
    ensures Inv(DoDestruct(w)) <==> forall i :: 0 <= i < |w.marks| ==> w.marks[i].chunks == []
  {
    if forall i :: 0 <= i < |w.marks| ==> w.marks[i].chunks == [] {
      DestructInv(w);
    }
    if Inv(DoDestruct(w)) {
      forall i | 0 <= i < |w.marks| ensures w.marks[i].chunks == [] {
        assert DoDestruct(w).marks[i].chunks <= DoDestruct(w).area.chunks;
      }
    }
  }

  lemma DestructInv(w: World)
    requires Inv(w) && forall i :: 0 <= i < |w.marks| ==> w.marks[i].chunks == []
    ensures Inv(DoDestruct(w))
  {
    var v := DoDestruct(w);
    FreeKeepsRegionsOk(w.regions, Bases(w.area.chunks));
    forall j | j in v.live ensures Placed(v.area, v.regions, v.live[j]) {
      assert Placed(w.area, w.regions, w.live[j]);
      InBases(w.area.chunks, w.live[j].addr);
    }
    forall i, j | i in v.live && j in v.live && i != j ensures Apart(v.live[i], v.live[j]) {
      assert Apart(w.live[i], w.live[j]);
    }
    forall i | 0 <= i < |v.marks| ensures v.marks[i] == v.area {
      assert AreaOk(w.marks[i], w.regions);
    }
    assert MarksOk(v) by {
      forall j, i | j in v.live && v.live[j].depth <= i < |v.marks| ensures Placed(v.marks[i], v.regions, v.live[j]) {
        assert Placed(v.area, v.regions, v.live[j]);
      }
    }
  }

  /** Every enabled operation keeps the invariant. */
  lemma StepInv(w: World, op: Op)
    requires Inv(w) && Enabled(w, op)
    ensures Inv(Step(w, op))
  {
    match op
    case Alloc(size, at) => AllocInv(w, w.next, size, at);
    case Free(id) => FreeInv(w, id);
    case Realloc(id, size, at) => ReallocInv(w, id, size, at);
    case Write(id, offset, value) => MemoryIsFree(w, Step(w, op).mem);
    case PushMark => PushInv(w);
    case Reset => ResetInv(w);
    case Release => ReleaseInv(w);
    case HeapAlloc(size, at) => HeapAllocInv(w, size, at);
    case HeapFree(id) => HeapFreeInv(w, id);
    case Destruct => DestructInv(w);
  }
}
