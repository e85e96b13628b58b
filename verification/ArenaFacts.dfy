/** What holds of every sound arena: exact accounting, `contains`, and what a request can obtain. */
module ArenaFacts {
  import opened Words
  import opened Memory
  import opened ArenaModel
  import opened ArenaSafety
  import opened ArenaRuns

  // ----- accounting -----

  lemma {:induction false} SumCons(k: ChunkRec, rest: seq<ChunkRec>)
    ensures Sum([k] + rest) == k.len + OVERHEAD + Sum(rest)
    decreases |rest|
  {
    var all := [k] + rest;
    if rest != [] {
      var n := |rest| - 1;
      SumCons(k, rest[..n]);
      assert all[..|all| - 1] == [k] + rest[..n];
    } else {
      assert all[..|all| - 1] == [];
    }
  }

  lemma {:induction false} UsedAlong(cs: seq<ChunkRec>, current: nat, hwm: nat)
    requires cs != [] && cs[|cs| - 1].base == current
    requires forall i :: 0 <= i < |cs| - 1 ==> cs[i].base != current
    ensures UsedIn(cs, current, hwm) + (cs[|cs| - 1].Top() - hwm) + 16 * |cs| == Sum(cs)
    decreases |cs|
  {
    assert cs == [cs[0]] + cs[1..];
    SumCons(cs[0], cs[1..]);
    if |cs| > 1 {
      UsedAlong(cs[1..], current, hwm);
    }
  }

  /** `_size_in_bytes` is the sum over listed chunks of length plus header, and every byte of it is used,
      still free at the end of the current chunk, or header. */
  lemma Conservation(s: Area, regions: Regions)
    requires RegionsOk(regions) && AreaOk(s, regions)
    ensures s.sizeInBytes == Sum(s.chunks) <= ADDRESS_LIMIT
    ensures Used(s) + (s.max - s.hwm) + 16 * |s.chunks| == s.sizeInBytes
    ensures 0 <= Used(s) <= s.sizeInBytes
  {
    if s.chunks != [] {
      var n := |s.chunks| - 1;
      SumBounded(s.chunks, regions);
      forall i | 0 <= i < n ensures s.chunks[i].base != s.current {
        assert Differ(s.chunks[i], s.chunks[n]);
      }
      UsedAlong(s.chunks, s.current, s.hwm);
      UsedNotNegative(s.chunks, s.current, s.hwm);
    }
  }

  lemma {:induction false} UsedNotNegative(cs: seq<ChunkRec>, current: nat, hwm: nat)
    requires forall i :: 0 <= i < |cs| && cs[i].base == current ==> cs[i].Bottom() <= hwm
    ensures UsedIn(cs, current, hwm) >= 0
    decreases |cs|
  {
    if cs != [] {
      UsedNotNegative(cs[1..], current, hwm);
    }
  }

  /** Accounting is exact in every reachable state. */
  lemma RunConserves(m: Mem, ops: seq<Op>)
    requires RunEnabled(Start(m), ops)
    ensures var s := Run(Start(m), ops).area;
            s.sizeInBytes == Sum(s.chunks) && Used(s) + (s.max - s.hwm) + 16 * |s.chunks| == s.sizeInBytes
  {
    StartInv(m);
    RunSafe(Start(m), ops);
    Conservation(Run(Start(m), ops).area, Run(Start(m), ops).regions);
  }

  // ----- in numbers -----

  /** The footprint of a request: the least multiple of 16 that holds it. */
  function Rounded(size: nat): nat { (size + 15) / 16 * 16 }

  /** The data bytes that a new chunk has: 32 kB less 40 bytes, or twice the footprint if that is more. */
  function NewChunkLen(size: nat): nat { if size <= 16352 then 32728 else 2 * Rounded(size) }

  /** Every request that can be served, in numbers: it needs a chunk exactly when fewer bytes are free than its
      footprint has; if not, only the high-water mark moves, by the footprint, from the block's address. */
  lemma AmallocInNumbers(s: Area, regions: Regions, size: Word, at: nat)
    requires RegionsOk(regions) && AreaOk(s, regions) && AllocAllowed(regions, s, size, at)
    ensures AtOk(s, size, at)
    ensures NeedsChunk(s, size) <==> Rounded(size) > s.max - s.hwm
    ensures !NeedsChunk(s, size) ==>
              AmallocPtr(s, size, at) == s.hwm && Amalloc(s, size, at) == s.(hwm := s.hwm + Rounded(size))
  {
    FitsExactly(s, regions, size, at);
    AlignIsRounded(size);
  }

  lemma FitsExactly(s: Area, regions: Regions, size: Word, at: nat)
    requires RegionsOk(regions) && AreaOk(s, regions) && AllocAllowed(regions, s, size, at)
    ensures AtOk(s, size, at)
    ensures NeedsChunk(s, size) <==> ArenaAlign(size) > s.max - s.hwm
    ensures !NeedsChunk(s, size) ==>
              AmallocPtr(s, size, at) == s.hwm && Amalloc(s, size, at) == s.(hwm := s.hwm + ArenaAlign(size))
  {
    AreaBelowLimit(s, regions);
    AlignTwice(size);
    assert Add(s.hwm, ArenaAlign(size)) == s.hwm + ArenaAlign(size);
  }

  /** A new chunk comes last in the list; the block is at its first data byte, 16 bytes after its base. */
  lemma NewChunkInNumbers(s: Area, regions: Regions, size: Word, at: nat)
    requires RegionsOk(regions) && AreaOk(s, regions) && AllocAllowed(regions, s, size, at) && NeedsChunk(s, size)
    ensures AtOk(s, size, at)
    ensures AmallocPtr(s, size, at) == at + 16
    ensures var v := Amalloc(s, size, at);
            && v.chunks == s.chunks + [ChunkRec(at, NewChunkLen(size))] && v.current == at
            && v.hwm == at + 16 + Rounded(size) && v.max == at + 16 + NewChunkLen(size)
            && v.sizeInBytes == s.sizeInBytes + 16 + NewChunkLen(size)
    ensures RegionsAfter(regions, s, size, at) == regions[at := 16 + NewChunkLen(size)]
  {
    AmallocSlow(s, regions, size, at);
    AmallocArea(s, regions, size, at);
    AlignIsRounded(size);
    ChunkLength(size);
    AlignTwice(size);
    GrowFields(s, ArenaAlign(size), at, ChunkRec(at, NewChunkLen(size)));
    SizesAdd(s, Amalloc(s, size, at), regions, RegionsAfter(regions, s, size, at), ChunkRec(at, NewChunkLen(size)));
  }

  lemma SizesAdd(s: Area, v: Area, regions: Regions, after: Regions, k: ChunkRec)
    requires RegionsOk(regions) && AreaOk(s, regions) && RegionsOk(after) && AreaOk(v, after)
    requires v.chunks == s.chunks + [k]
    ensures v.sizeInBytes == s.sizeInBytes + 16 + k.len
  {
    Conservation(s, regions);
    Conservation(v, after);
    assert v.chunks[..|s.chunks|] == s.chunks;
  }

  lemma AlignIsRounded(size: Word)
    requires size <= WORD - 16
    ensures ArenaAlign(size) == Rounded(size)
  {
  }

  lemma ChunkLength(size: Word)
    requires size <= MAX_REQUEST
    ensures GrowLen(ArenaAlign(size)) == NewChunkLen(size)
  {
    AlignTwice(size);
    if size <= 16352 {
      assert (size + 15) / 16 <= 1022;
    } else {
      assert (size + 15) / 16 >= 1023;
    }
  }

  /** Freeing a non-empty block lowers the high-water mark to it if it is the last one, and does nothing else to
      the arena; nor to the C heap and the memory. */
  lemma FreeLowersExactly(w: World, id: nat)
    requires Inv(w) && Enabled(w, Free(id)) && w.live[id].size > 0
    ensures var b, v := w.live[id], Step(w, Free(id));
            && v.area == (if b.addr + Rounded(b.size) == w.area.hwm then w.area.(hwm := b.addr) else w.area)
            && v.regions == w.regions && v.mem == w.mem && v.live == w.live - {id}
  {
    assert Placed(w.area, w.regions, w.live[id]);
    AlignIsRounded(w.live[id].size);
  }

  /** What Arealloc does to the arena, for a non-empty block: nothing when the footprint need not grow, not even
      for the last block; the high-water mark moves by the difference when there is room behind the last one; and
      otherwise it allocates as Amalloc does, and frees nothing. */
  lemma ReallocAreaExactly(w: World, id: nat, size: Word, at: nat)
    requires Inv(w) && Enabled(w, Realloc(id, size, at)) && w.live[id].size > 0
    ensures var b, v := w.live[id], Step(w, Realloc(id, size, at));
            var more := Rounded(size) - Rounded(b.size);
            && (more <= 0 ==> v.area == w.area && v.regions == w.regions && v.live[id].addr == b.addr)
            && (more > 0 && b.addr + Rounded(b.size) == w.area.hwm && more <= w.area.max - w.area.hwm ==>
                  v.area == w.area.(hwm := w.area.hwm + more) && v.regions == w.regions)
            && (more > 0 && (b.addr + Rounded(b.size) != w.area.hwm || more > w.area.max - w.area.hwm) ==>
                  && AtOk(w.area, size, at) && v.area == Amalloc(w.area, size, at)
                  && v.regions == RegionsAfter(w.regions, w.area, size, at)
                  && v.live[id].addr == AmallocPtr(w.area, size, at))
            && v.live[id].size == size
  {
    assert Placed(w.area, w.regions, w.live[id]);
    AlignIsRounded(w.live[id].size);
    AlignIsRounded(size);
    StayPath(w, id, size);
    match PathOf(w.area, w.live[id].addr, w.live[id].size, size)
    case Fresh =>
    case Keep =>
    case Extend => ExtendedArea(w, id, size, at);
    case Move => MovedArea(w, id, size, at);
  }

  lemma ExtendedArea(w: World, id: nat, size: Word, at: nat)
    requires Inv(w) && Enabled(w, Realloc(id, size, at))
    requires PathOf(w.area, w.live[id].addr, w.live[id].size, size) == Extend
    ensures DoRealloc(w, id, size, at).area ==
              w.area.(hwm := w.area.hwm + (ArenaAlign(size) - ArenaAlign(w.live[id].size)))
  {
    AreaBelowLimit(w.area, w.regions);
  }

  lemma MovedArea(w: World, id: nat, size: Word, at: nat)
    requires Inv(w) && Enabled(w, Realloc(id, size, at))
    requires PathOf(w.area, w.live[id].addr, w.live[id].size, size) == Move
    ensures AtOk(w.area, size, at)
    ensures var v := DoRealloc(w, id, size, at);
            && v.area == Amalloc(w.area, size, at) && v.regions == RegionsAfter(w.regions, w.area, size, at)
            && v.live[id].addr == AmallocPtr(w.area, size, at)
  {
    MoveInv(w, id, size, at);
    MoveTarget(w, id, size, at);
    AlignTwice(size);
  }

  /** The bytes: the first of the block, as many as both sizes have, are at its new address what they were at the
      old one. (ReallocOthers is about the other blocks.) */
  lemma ReallocKeepsBytes(w: World, id: nat, size: Word, at: nat, i: nat)
    requires Inv(w) && Enabled(w, Realloc(id, size, at)) && i < w.live[id].size && i < size
    ensures var v := DoRealloc(w, id, size, at);
            v.mem(v.live[id].addr + i) == w.mem(w.live[id].addr + i)
  {
    if PathOf(w.area, w.live[id].addr, w.live[id].size, size) == Move {
      MovedBytes(w, id, size, at, i);
    } else {
      BlockNotNull(w, id);
      UnmovedBytes(w, id, size, at);
    }
  }

  lemma BlockNotNull(w: World, id: nat)
    requires Inv(w) && id in w.live && w.live[id].size > 0
    ensures w.live[id].addr != 0
  {
    BlockPlaced(w, id, w.live[id].addr);
  }

  lemma MovedBytes(w: World, id: nat, size: Word, at: nat, i: nat)
    requires Inv(w) && Enabled(w, Realloc(id, size, at)) && i < w.live[id].size && i < size
    requires PathOf(w.area, w.live[id].addr, w.live[id].size, size) == Move
    ensures var v := DoRealloc(w, id, size, at);
            v.mem(v.live[id].addr + i) == w.mem(w.live[id].addr + i)
  {
    MoveBrings(w, id, size, at);
    var v := DoRealloc(w, id, size, at);
    CopiedAt(v.mem, v.live[id].addr, w.mem, w.live[id].addr, w.live[id].size, i);
  }

  lemma CopiedAt(to: Mem, dst: nat, from: Mem, src: nat, n: nat, i: nat)
    requires Copied(to, dst, from, src, n) && i < n
    ensures to(dst + i) == from(src + i)
  {
    var p := dst + i;
    assert to(p) == from(p - dst + src);
  }

  lemma UnmovedBytes(w: World, id: nat, size: Word, at: nat)
    requires Inv(w) && Enabled(w, Realloc(id, size, at)) && w.live[id].addr != 0
    requires PathOf(w.area, w.live[id].addr, w.live[id].size, size) != Move
    ensures DoRealloc(w, id, size, at).mem == w.mem
    ensures DoRealloc(w, id, size, at).live[id].addr == w.live[id].addr
  {
  }

  /** Null: freeing it does nothing, whatever the size, and resizing it is allocating. */
  lemma NullCalls(s: Area, oldSize: Word, newSize: Word, at: nat)
    requires AtOk(s, newSize, at)
    ensures Afree(s, 0, oldSize) == s
    ensures ReallocAtOk(s, 0, oldSize, newSize, at)
    ensures Arealloc(s, 0, oldSize, newSize, at) == Amalloc(s, newSize, at)
    ensures AreallocPtr(s, 0, oldSize, newSize, at) == AmallocPtr(s, newSize, at)
  {
  }

  // ----- destruction -----

  /** Destroying the contents frees every listed chunk, each of them once, and no other region. */
  lemma DestructFrees(w: World)
    requires Inv(w)
    ensures forall i :: 0 <= i < |w.area.chunks| ==>
              w.area.chunks[i].base in w.regions && w.area.chunks[i].base !in DoDestruct(w).regions
    ensures |Bases(w.area.chunks)| == |w.area.chunks|
    ensures forall b :: b in w.regions && (forall i :: 0 <= i < |w.area.chunks| ==> w.area.chunks[i].base != b) ==>
              b in DoDestruct(w).regions && DoDestruct(w).regions[b] == w.regions[b]
    ensures DoDestruct(w).regions.Keys <= w.regions.Keys
    ensures DoDestruct(w).area == Area([], 0, 0, 0, 0) && DoDestruct(w).mem == w.mem
  {
    var cs := w.area.chunks;
    BasesCount(cs);
    forall i | 0 <= i < |cs| ensures cs[i].base !in DoDestruct(w).regions {
      InBases(cs, cs[i].base);
    }
    forall b | b in w.regions && (forall i :: 0 <= i < |cs| ==> cs[i].base != b) ensures b !in Bases(cs) {
      InBases(cs, b);
    }
  }

  // ----- contains -----

  /** `contains` accepts every byte of every live arena block. */
  lemma ContainsLive(w: World, id: nat, p: nat)
    requires Inv(w) && id in w.live && w.live[id].home.InChunk? && w.live[id].Has(p)
    ensures Contains(w.area, p)
  {
    assert Placed(w.area, w.regions, w.live[id]);
    assert w.area.chunks[w.live[id].home.index].Contains(p);
  }

  /** `contains` accepts no data byte of a chunk that is not in the list, in spite of its inclusive top:
      a header comes first. */
  lemma ContainsNoOtherChunk(w: World, k: ChunkRec, p: nat)
    requires Inv(w) && k.base in w.regions && w.regions[k.base] == OVERHEAD + k.len
    requires k.base !in Bases(w.area.chunks)
    requires k.Bottom() <= p < k.Top()
    ensures !Contains(w.area, p)
  {
    forall i | 0 <= i < |w.area.chunks| ensures !w.area.chunks[i].Contains(p) {
      InBases(w.area.chunks, k.base);
      ChunksApart(w.regions, w.area.chunks[i], k);
    }
  }

  /** For a byte of any other allocated region, `contains` errs exactly at the first byte of a region that
      starts where a listed chunk ends. */
  lemma ContainsOtherRegion(w: World, b: nat, p: nat)
    requires Inv(w) && b in w.regions && b !in Bases(w.area.chunks) && b <= p < b + w.regions[b]
    ensures Contains(w.area, p) <==> p == b && exists i :: 0 <= i < |w.area.chunks| && w.area.chunks[i].Top() == b
  {
    var cs := w.area.chunks;
    forall i | 0 <= i < |cs| ensures cs[i].Contains(p) <==> p == b == cs[i].Top() {
      InBases(cs, b);
      RegionsApart(w.regions, cs[i].base, b);
    }
  }

  /** Over all addresses: `contains` accepts exactly the data bytes of the listed chunks, which begin 16 bytes after
      the base, and the first address behind each chunk. So it refuses a chunk's own header, but for the first
      byte of one that lies right behind another listed chunk. */
  lemma ContainsExactly(w: World, p: nat)
    requires Inv(w)
    ensures Contains(w.area, p) <==>
              exists b :: b in Bases(w.area.chunks) && b in w.regions && b + 16 <= p <= b + w.regions[b]
  {
    var cs := w.area.chunks;
    if Contains(w.area, p) {
      var i :| 0 <= i < |cs| && cs[i].Contains(p);
      InBases(cs, cs[i].base);
      assert cs[i].base in Bases(cs) && cs[i].base + 16 <= p <= cs[i].base + w.regions[cs[i].base];
    }
    if b :| b in Bases(cs) && b in w.regions && b + 16 <= p <= b + w.regions[b] {
      InBases(cs, b);
      var i :| 0 <= i < |cs| && cs[i].base == b;
      assert cs[i].Contains(p);
    }
  }

  /** In particular: an address in the header of a listed chunk. */
  lemma ContainsOwnHeader(w: World, i: nat, p: nat)
    requires Inv(w) && i < |w.area.chunks| && w.area.chunks[i].base <= p < w.area.chunks[i].base + 16
    ensures Contains(w.area, p) <==>
              p == w.area.chunks[i].base && exists j :: 0 <= j < |w.area.chunks| && w.area.chunks[j].Top() == p
  {
    var cs := w.area.chunks;
    forall j | 0 <= j < |cs| ensures cs[j].Contains(p) <==> p == cs[i].base == cs[j].Top() {
      if j != i {
        assert if i < j then Differ(cs[i], cs[j]) else Differ(cs[j], cs[i]);
        RegionsApart(w.regions, cs[i].base, cs[j].base);
      }
    }
  }

  /** It does err: a chunk at 4096 for 16384 bytes ends at 36880, where the C heap may place another block. */
  lemma ContainsErrs(m: Mem)
    ensures var ops := [Alloc(16384, 4096), HeapAlloc(8, 36880)];
            && RunEnabled(Start(m), ops)
            && var w := Run(Start(m), ops);
               && w.area.chunks == [ChunkRec(4096, 32768)]
               && 1 in w.live && w.live[1] == Block(36880, 8, 0, OnHeap) && Contains(w.area, 36880)
  {
    assert ArenaAlign(16384) == 16384;
    AlignedIsMod(4096);
    AlignedIsMod(36880);
    var u := Step(Start(m), Alloc(16384, 4096));
    assert u.area.chunks == [ChunkRec(4096, 32768)] && u.regions == map[4096 := 32784] && u.next == 1;
    RunOfTwo(Start(m), Alloc(16384, 4096), HeapAlloc(8, 36880));
    assert u.area.chunks[0].Contains(36880);
  }

  // ----- what a request obtains -----

  /** The returned address has `size` bytes behind it inside one listed chunk. */
  ghost predicate Obtains(s: Area, p: nat, size: nat) {
    exists c :: 0 <= c < |s.chunks| && s.chunks[c].Bottom() <= p && p + size <= s.chunks[c].Top()
  }

  /** Over all sizes: a call that returns gives the bytes asked for exactly when the size is at most
      2^63 - 16. */
  lemma AmallocObtainsExactly(s: Area, regions: Regions, size: Word, at: nat)
    requires RegionsOk(regions) && AreaOk(s, regions) && size > 0
    requires NeedsChunk(s, size) ==> MallocOk(regions, at, ChunkBytes(size))
    ensures AtOk(s, size, at)
    ensures Obtains(Amalloc(s, size, at), AmallocPtr(s, size, at), size) <==> size <= MAX_REQUEST
  {
    var s', p := Amalloc(s, size, at), AmallocPtr(s, size, at);
    if size <= MAX_REQUEST {
      AmallocArea(s, regions, size, at);
      NewBlockPlaced(s, regions, size, at, 0);
      assert s'.chunks[|s'.chunks| - 1].Bottom() <= p && p + size <= s'.chunks[|s'.chunks| - 1].Top();
    } else {
      NoChunkIsHuge(s, regions, size, at);
    }
  }

  lemma NoChunkIsHuge(s: Area, regions: Regions, size: Word, at: nat)
    requires RegionsOk(regions) && AreaOk(s, regions)
    requires NeedsChunk(s, size) ==> MallocOk(regions, at, ChunkBytes(size))
    ensures AtOk(s, size, at)
    ensures forall c :: 0 <= c < |Amalloc(s, size, at).chunks| ==> Amalloc(s, size, at).chunks[c].len < MAX_REQUEST
  {
    var cs := Amalloc(s, size, at).chunks;
    assert s.chunks <= cs;
    forall c | 0 <= c < |cs| ensures cs[c].len < MAX_REQUEST {
      if c < |s.chunks| {
        assert cs[c] == s.chunks[c] && s.chunks[c].base in regions;
      }
    }
  }

  /** The failing family is not stopped by the C heap: every aligned size from 2^63 to 2^64 - 16 doubles to a
      smaller number, so a chunk too short for it is obtained and the high-water mark leaves that chunk. */
  lemma HugeRequestLeavesChunk(s: Area, x: Word, at: nat)
    requires ADDRESS_LIMIT <= x
    requires 0 < at && at + OVERHEAD + GrowLen(x) <= ADDRESS_LIMIT
    ensures GrowLen(x) < x
    ensures var g := Grow(s, x, at);
            var k := g.chunks[|g.chunks| - 1];
            k.base == at && !(k.Bottom() <= g.hwm <= k.Top())
  {
  }

  /** Sizes above 2^63 - 16 that do not wrap to zero: they stay on the fast path exactly when the high-water
      mark, plus the size, wraps; and then the call lowers the mark. */
  lemma HugeRequestLowersMarkExactly(s: Area, regions: Regions, size: Word, at: nat)
    requires RegionsOk(regions) && AreaOk(s, regions) && MAX_REQUEST < size <= WORD - 16
    ensures 0 < WORD - ArenaAlign(size) <= ADDRESS_LIMIT
    ensures !NeedsChunk(s, size) <==> s.hwm >= WORD - ArenaAlign(size)
    ensures !NeedsChunk(s, size) ==>
              Amalloc(s, size, at) == s.(hwm := s.hwm - (WORD - ArenaAlign(size))) && AmallocPtr(s, size, at) == s.hwm
  {
    AreaBelowLimit(s, regions);
    AlignedIsMod(WORD);
    AlignedIsMod(ADDRESS_LIMIT);
    var x := ArenaAlign(size);
    if x < ADDRESS_LIMIT {
      AlignedDifference(x, ADDRESS_LIMIT);
    }
    AlignedDifference(x, WORD);
  }

  /** If the mark is lowered into the last block, the next allocation hands out bytes set aside for it. */
  lemma LoweredMarkOverlaps(w: World, id: nat, size: Word, at: nat)
    requires Inv(w) && id in w.live && w.live[id].home.InChunk? && w.live[id].size > 0 && w.live[id].End() == w.area.hwm
    requires MAX_REQUEST < size <= WORD - 16 && WORD - ArenaAlign(size) <= w.live[id].Foot()
    ensures !NeedsChunk(w.area, size)
    ensures var s := Amalloc(w.area, size, at);
            !NeedsChunk(s, 1) && w.live[id].addr <= AmallocPtr(s, 1, at) < w.live[id].End()
  {
    HugeRequestLowersMarkExactly(w.area, w.regions, size, at);
    assert Placed(w.area, w.regions, w.live[id]);
    AreaBelowLimit(w.area, w.regions);
    AlignedIsMod(WORD);
    AlignedDifference(ArenaAlign(size), WORD);
    assert ArenaAlign(1) == 16;
  }

  /** An instance: 16 bytes at 4112, then 2^64 - 16 bytes, then 16 more, at 4112 again. */
  lemma LoweredMarkInstance(m: Mem)
    ensures Enabled(Start(m), Alloc(16, 4096))
    ensures var w := Step(Start(m), Alloc(16, 4096));
            && 0 in w.live && w.live[0].addr == 4112 && !NeedsChunk(w.area, WORD - 16)
            && var s := Amalloc(w.area, WORD - 16, 0);
               s.hwm == 4112 && !NeedsChunk(s, 16) && AmallocPtr(s, 16, 0) == 4112
  {
    assert ArenaAlign(16) == 16 && ArenaAlign(WORD - 16) == WORD - 16;
    AlignedIsMod(4096);
  }

  /** The last fifteen words are rounded to zero: the call reports success and sets nothing aside. */
  lemma WrappedRequestIsEmpty(s: Area, size: Word, at: nat)
    requires size > WORD - 16 && s.hwm <= s.max
    ensures !NeedsChunk(s, size) && Amalloc(s, size, at) == s && AmallocPtr(s, size, at) == s.hwm
  {
  }

  /** Arealloc keeps the address of a non-empty block exactly when its footprint need not grow, or it is
      the last block and the current chunk has room; otherwise the new footprint is clear of the old. */
  lemma ReallocStaysExactly(w: World, id: nat, size: Word, at: nat)
    requires Inv(w) && Enabled(w, Realloc(id, size, at)) && w.live[id].size > 0
    ensures var b, v := w.live[id], Step(w, Realloc(id, size, at));
            var delta := ArenaAlign(size) - ArenaAlign(b.size);
            && (v.live[id].addr == b.addr <==>
                  delta <= 0 || (b.End() == w.area.hwm && w.area.hwm + delta <= w.area.max))
            && (v.live[id].addr != b.addr ==> b.End() <= v.live[id].addr || v.live[id].End() <= b.addr)
            && size <= v.live[id].Foot()
  {
    StayPath(w, id, size);
    if PathOf(w.area, w.live[id].addr, w.live[id].size, size) == Move {
      MovedBlockApart(w, id, size, at);
    }
  }

  lemma StayPath(w: World, id: nat, size: Word)
    requires Inv(w) && id in w.live && w.live[id].home.InChunk? && w.live[id].size > 0 && size <= MAX_REQUEST
    ensures var b, path := w.live[id], PathOf(w.area, w.live[id].addr, w.live[id].size, size);
            var delta := ArenaAlign(size) - ArenaAlign(b.size);
            && path != Fresh && b.Foot() > 0
            && (path != Move <==> delta <= 0 || (b.End() == w.area.hwm && w.area.hwm + delta <= w.area.max))
  {
    assert Placed(w.area, w.regions, w.live[id]);
    AreaBelowLimit(w.area, w.regions);
  }

  lemma MovedBlockApart(w: World, id: nat, size: Word, at: nat)
    requires Inv(w) && Enabled(w, Realloc(id, size, at)) && w.live[id].size > 0
    requires PathOf(w.area, w.live[id].addr, w.live[id].size, size) == Move
    ensures var b, c := w.live[id], DoRealloc(w, id, size, at).live[id];
            (b.End() <= c.addr || c.End() <= b.addr) && size <= c.Foot() && c.Foot() > 0 && b.Foot() > 0
  {
    MoveTarget(w, id, size, at);
    MoveAllowed(w, id, size, at);
    AlignTwice(size);
    assert Placed(w.area, w.regions, w.live[id]);
    FreshBlockApart(w.area, w.regions, ArenaAlign(size), at, w.live[id], 0);
  }

  /** Freeing a block right after allocating it undoes the allocation: the area is as before, except that a
      chunk appended for the block stays, empty. */
  lemma AllocThenFree(w: World, size: Word, at: nat)
    requires Inv(w) && Enabled(w, Alloc(size, at))
    ensures var v := Step(w, Alloc(size, at));
            Enabled(v, Free(w.next)) &&
            var u := Step(v, Free(w.next));
            && u.live == w.live
            && (!NeedsChunk(w.area, size) ==> u.area == w.area && u.regions == w.regions)
            && (NeedsChunk(w.area, size) ==>
                  && u.area.chunks == w.area.chunks + [ChunkRec(at, GrowLen(ArenaAlign(size)))]
                  && u.area.hwm == at + OVERHEAD && Used(u.area) == Sum(w.area.chunks) - 16 * |w.area.chunks|)
  {
    var u := AllocFreed(w, size, at);
    UndoneAlloc(w.area, w.regions, size, at);
    if NeedsChunk(w.area, size) {
      UndoneSlowAlloc(w.area, u.area, u.regions, ChunkRec(at, GrowLen(ArenaAlign(size))));
    }
  }

  lemma AllocFreed(w: World, size: Word, at: nat) returns (u: World)
    requires Inv(w) && Enabled(w, Alloc(size, at))
    ensures var v := Step(w, Alloc(size, at));
            Enabled(v, Free(w.next)) && u == Step(v, Free(w.next))
    ensures Inv(u) && u.live == w.live && u.regions == RegionsAfter(w.regions, w.area, size, at)
    ensures AtOk(w.area, size, at) && u.area == Afree(Amalloc(w.area, size, at), AmallocPtr(w.area, size, at), size)
  {
    var v := AllocAs(w, w.next, size, at);
    AllocInv(w, w.next, size, at);
    var b := v.live[w.next];
    NewestFreed(v, w.live, w.next, b);
    FreeInv(v, w.next);
    u := DoFree(v, w.next);
    assert b.addr == AmallocPtr(w.area, size, at) && b.size == size;
  }

  lemma NewestFreed(v: World, before: map<nat, Block>, id: nat, b: Block)
    requires id !in before && v.live == before[id := b]
    ensures DoFree(v, id).live == before
  {
    assert before[id := b] - {id} == before;
  }

  lemma UndoneAlloc(s: Area, regions: Regions, size: Word, at: nat)
    requires RegionsOk(regions) && AreaOk(s, regions) && AllocAllowed(regions, s, size, at)
    ensures AtOk(s, size, at)
    ensures var u := Afree(Amalloc(s, size, at), AmallocPtr(s, size, at), size);
            if NeedsChunk(s, size) then
              u.chunks == s.chunks + [ChunkRec(at, GrowLen(ArenaAlign(size)))] && u.hwm == at + OVERHEAD
            else u == s
  {
    AmallocArea(s, regions, size, at);
  }

  lemma UndoneSlowAlloc(s: Area, u: Area, regions: Regions, k: ChunkRec)
    requires RegionsOk(regions) && AreaOk(u, regions)
    requires u.chunks == s.chunks + [k] && u.hwm == k.Bottom()
    ensures Used(u) == Sum(s.chunks) - 16 * |s.chunks|
  {
    Conservation(u, regions);
    assert u.chunks[..|s.chunks|] == s.chunks;
  }
}
