/** What undoing a mark takes back: which blocks, and whether their memory can be had again. */
module ArenaMarks {
  import opened Words
  import opened Memory
  import opened ArenaModel
  import opened ArenaSafety
  import opened ArenaRuns

  // ----- which blocks -----

  /** Does the operation give the block a larger footprint? */
  predicate Enlarges(w: World, op: Op, id: nat) {
    op.Realloc? && op.id == id && id in w.live && ArenaAlign(op.size) > ArenaAlign(w.live[id].size)
  }

  ghost predicate EverEnlarged(w: World, ops: seq<Op>, id: nat)
    requires RunEnabled(w, ops)
    decreases |ops|
  {
    ops != [] && (Enlarges(w, ops[0], id) || EverEnlarged(Step(w, ops[0]), ops[1..], id))
  }

  /** What one step does to a block's name, home and place. */
  lemma NameStep(w: World, op: Op, id: nat)
    requires Inv(w) && Enabled(w, op)
    ensures w.next <= Step(w, op).next
    ensures id in Step(w, op).live ==> id in w.live || id == w.next
    ensures id in Step(w, op).live && id in w.live ==> (Step(w, op).live[id].home.OnHeap? <==> w.live[id].home.OnHeap?)
  {
  }

  /** Names are not used again. */
  lemma {:induction false} NamesNotReused(w: World, ops: seq<Op>, id: nat)
    requires Inv(w) && RunEnabled(w, ops) && id < w.next && id !in w.live
    ensures id !in Run(w, ops).live
    decreases |ops|
  {
    if ops != [] {
      StepInv(w, ops[0]);
      NameStep(w, ops[0], id);
      NamesNotReused(Step(w, ops[0]), ops[1..], id);
    }
  }

  /** A block's home is in a chunk or on the heap for good. */
  lemma {:induction false} HomeKept(w: World, ops: seq<Op>, id: nat)
    requires Inv(w) && RunEnabled(w, ops) && id in w.live && id in Run(w, ops).live
    ensures Run(w, ops).live[id].home.OnHeap? <==> w.live[id].home.OnHeap?
    decreases |ops|
  {
    if ops != [] {
      var v := Step(w, ops[0]);
      StepInv(w, ops[0]);
      NameStep(w, ops[0], id);
      if id !in v.live {
        NamesNotReused(v, ops[1..], id);
      } else {
        HomeKept(v, ops[1..], id);
      }
    }
  }

  /** While more than d marks are open, a block is no older than mark d unless it was so before. */
  lemma AgeStep(w: World, op: Op, id: nat, d: nat)
    requires Inv(w) && Enabled(w, op) && |w.marks| > d
    requires id in Step(w, op).live && Step(w, op).live[id].home.InChunk?
    ensures Step(w, op).live[id].depth <= d <==> id in w.live && w.live[id].depth <= d && !Enlarges(w, op, id)
    ensures Step(w, op).live[id].depth <= d ==> SameOrShrunk(w.live[id], Step(w, op).live[id])
  {
    var v := Step(w, op);
    if id in w.live {
      assert Placed(w.area, w.regions, w.live[id]);
    } else {
      assert id == w.next;
    }
    if op.Realloc? && op.id == id {
      assert v.live[id].size == op.size;
    }
  }

  /** b is a, perhaps with part of its footprint given up. */
  predicate SameOrShrunk(a: Block, b: Block) {
    && b.Foot() <= a.Foot()
    && (b.size > 0 ==> a.size > 0 && a.addr == b.addr)
  }

  /** What a depth says of a stretch of a run during which more than d marks stay open: a block is as old as
      mark d afterwards exactly when it was there before and was not enlarged since; and then it is where it
      was. */
  lemma {:induction false} AgeRun(w: World, ops: seq<Op>, id: nat, d: nat)
    requires Inv(w) && RunEnabled(w, ops) && StaysAbove(w, ops, d)
    requires id in Run(w, ops).live && Run(w, ops).live[id].home.InChunk?
    ensures var b := Run(w, ops).live[id];
            b.depth <= d <==> id in w.live && w.live[id].depth <= d && !EverEnlarged(w, ops, id)
    ensures var b := Run(w, ops).live[id];
            b.depth <= d ==> SameOrShrunk(w.live[id], b)
    decreases |ops|
  {
    if ops != [] {
      var v := Step(w, ops[0]);
      StepInv(w, ops[0]);
      NameStep(w, ops[0], id);
      AgeRun(v, ops[1..], id, d);
      if id in v.live {
        HomeKept(v, ops[1..], id);
        AgeStep(w, ops[0], id, d);
      } else if id in w.live {
        NamesNotReused(v, ops[1..], id);
      }
    }
  }

  /** Undoing a mark leaves, of the arena blocks, exactly those that were there when the mark was opened and
      have not been enlarged since, where they were; and all C-heap blocks. */
  lemma BracketDropsYounger(w: World, ops: seq<Op>, id: nat)
    requires Inv(w) && Bracket(w, ops) && Enabled(Inside(w, ops), Release) && id in Inside(w, ops).live
    ensures var b := Inside(w, ops).live[id];
            id in Step(Inside(w, ops), Release).live <==>
              b.home.OnHeap? || (id in w.live && !EverEnlarged(Step(w, PushMark), ops, id))
    ensures id in Step(Inside(w, ops), Release).live && Inside(w, ops).live[id].home.InChunk? ==>
              SameOrShrunk(w.live[id], Step(Inside(w, ops), Release).live[id])
  {
    var v := Inside(w, ops);
    StepInv(w, PushMark);
    InsideBracket(w, ops);
    assert Placed(v.area, v.regions, v.live[id]);
    if v.live[id].home.InChunk? {
      AgeRun(Step(w, PushMark), ops, id, |w.marks|);
    }
  }

  // ----- whose memory -----

  /** Can the next allocation, in the arena or on the C heap, be given memory of this block? */
  ghost predicate Reusable(w: World, b: Block) {
    exists op: Op :: (op.Alloc? || op.HeapAlloc?) && Enabled(w, op) && !Apart(b, Step(w, op).live[w.next])
  }

  /** Does the block go beyond what the area holds: into a later chunk, or past its high-water mark? */
  predicate Beyond(s: Area, b: Block) {
    && b.home.InChunk?
    && (b.home.index >= |s.chunks| || (b.home.index == |s.chunks| - 1 && b.End() > s.hwm))
  }

  lemma PlacedNotReusable(w: World, b: Block)
    requires Inv(w) && Placed(w.area, w.regions, b)
    ensures !Reusable(w, b)
  {
    forall op: Op | (op.Alloc? || op.HeapAlloc?) && Enabled(w, op) ensures Apart(b, Step(w, op).live[w.next]) {
      match op
      case Alloc(size, at) =>
        FreshBlockApart(w.area, w.regions, size, at, b, |w.marks|);
        assert Step(w, op).live[w.next] == NewBlock(w.area, size, at, |w.marks|);
      case HeapAlloc(size, at) =>
        HeapBlockApart(w.area, w.regions, at, size, b);
    }
  }

  /** v is w with its innermost mark undone. */
  ghost predicate Undone(w: World, v: World)
    requires w.marks != []
  {
    var saved := w.marks[|w.marks| - 1];
    && Inv(v) && v.area == saved && saved.chunks <= w.area.chunks
    && v.regions == w.regions - Bases(w.area.chunks[|saved.chunks|..])
  }

  lemma ReleaseUndoes(w: World)
    requires Inv(w) && w.marks != [] && ResetSafe(w)
    ensures Undone(w, DoReset(w)) && Undone(w, DoRelease(w))
  {
    var saved := w.marks[|w.marks| - 1];
    OlderMark(w, |w.marks| - 1);
    ResetInv(w);
    ReleaseInv(w);
    ResetRestores(saved, w.area, w.regions);
    assert Freed(w.area, MarkOf(saved)) == w.area.chunks[|saved.chunks|..];
  }

  lemma FreedChunkReusable(w: World, v: World, b: Block)
    requires Inv(w) && w.marks != [] && Undone(w, v)
    requires Placed(w.area, w.regions, b) && b.home.InChunk? && b.size > 0 && b.home.index >= |v.area.chunks|
    ensures Reusable(v, b)
  {
    var c, n := b.home.index, |v.area.chunks|;
    var k := w.area.chunks[c];
    var gone := w.area.chunks[n..];
    assert gone[c - n] == k;
    InBases(gone, k.base);
    FreedRegionAgain(w.regions, Bases(gone), k.base);
    assert MallocOk(v.regions, k.base, OVERHEAD + k.len);
    RegionReusable(v, k.base, OVERHEAD + k.len, b);
  }

  lemma RegionReusable(v: World, base: nat, n: nat, b: Block)
    requires MallocOk(v.regions, base, n) && b.size > 0 && base <= b.addr < b.End() && b.addr < base + n
    ensures Reusable(v, b)
  {
    AlignedConstants();
    AlignedDifference(0, base);
    var op := HeapAlloc(n, base);
    assert Enabled(v, op);
    assert Step(v, op).live[v.next] == Block(base, n, 0, OnHeap);
  }

  /** A freed region can be handed out again as it was. */
  lemma FreedRegionAgain(regions: Regions, gone: set<nat>, b: nat)
    requires RegionsOk(regions) && b in regions && b in gone
    ensures MallocOk(regions - gone, b, regions[b])
  {
    forall c | c in regions - gone ensures if c < b then c + regions[c] <= b else b + regions[b] <= c {
      RegionsApart(regions, b, c);
    }
  }

  lemma PastMarkReusable(w: World, v: World, b: Block)
    requires Inv(w) && w.marks != [] && Undone(w, v)
    requires Placed(w.area, w.regions, b) && b.home.InChunk? && b.size > 0
    requires b.home.index == |v.area.chunks| - 1 && b.End() > v.area.hwm
    ensures Reusable(v, b)
  {
    var s := v.area;
    var size := b.End() - s.hwm;
    assert s.chunks[b.home.index] == w.area.chunks[b.home.index];
    AreaBelowLimit(s, v.regions);
    AreaBelowLimit(w.area, w.regions);
    AlignedSum(b.addr, b.Foot());
    AlignedDifference(s.hwm, b.End());
    AlignedDifference(size, ArenaAlign(size));
    assert b.End() <= s.max;
    var op := Alloc(size, 0);
    assert Enabled(v, op);
    assert Step(v, op).live[v.next].addr == s.hwm && Step(v, op).live[v.next].End() == b.End();
  }

  lemma WithinIsPlaced(w: World, v: World, b: Block)
    requires Inv(w) && w.marks != [] && Undone(w, v)
    requires Placed(w.area, w.regions, b) && b.home.InChunk? && !Beyond(v.area, b)
    ensures Placed(v.area, v.regions, b)
  {
    if b.size > 0 {
      assert v.area.chunks[b.home.index] == w.area.chunks[b.home.index];
    }
  }

  /** Undoing a mark really takes back the memory of a block exactly when the block lies in a chunk appended
      since, or ends above the high-water mark that is put back. */
  lemma TakenBackExactly(w: World, v: World, id: nat)
    requires Inv(w) && w.marks != [] && Undone(w, v)
    requires id in w.live && w.live[id].home.InChunk? && w.live[id].size > 0
    ensures Reusable(v, w.live[id]) <==> Beyond(v.area, w.live[id])
  {
    var b := w.live[id];
    assert Placed(w.area, w.regions, b);
    if !Beyond(v.area, b) {
      WithinIsPlaced(w, v, b);
      PlacedNotReusable(v, b);
    } else if b.home.index >= |v.area.chunks| {
      FreedChunkReusable(w, v, b);
    } else {
      PastMarkReusable(w, v, b);
    }
  }

  // ----- when all that is younger is taken back -----

  /** Has the area, which goes on from m, at least as much in use as m? */
  predicate NotBelow(m: Area, s: Area) { |s.chunks| > |m.chunks| || s.hwm >= m.hwm }

  /** Undoing mark d would take back the memory of every non-empty block that is younger. */
  ghost predicate YoungerBeyond(w: World, d: nat)
    requires d < |w.marks|
  {
    forall id :: id in w.live && w.live[id].depth > d && w.live[id].size > 0 ==> Beyond(w.marks[d], w.live[id])
  }

  /** And of every block that the arena could hand out next. */
  ghost predicate TakesAll(w: World, d: nat)
    requires d < |w.marks|
  {
    && YoungerBeyond(w, d)
    && (forall size, at :: size > 0 && Enabled(w, Alloc(size, at)) ==>
          Beyond(w.marks[d], Step(w, Alloc(size, at)).live[w.next]))
  }

  /** TakesAll in terms of the high-water mark, see BelowMarkExactly; the marks opened since must comply, too,
      as undoing them puts their high-water marks back. */
  ghost predicate Clear(w: World, d: nat)
    requires d < |w.marks|
  {
    && YoungerBeyond(w, d) && NotBelow(w.marks[d], w.area)
    && forall i :: d <= i < |w.marks| ==> NotBelow(w.marks[d], w.marks[i])
  }

  /** The two calls that spoil this: freeing the last block when it begins below the mark, and shrinking a
      block enlarged since the mark to an end no higher than the mark. */
  predicate Undercuts(w: World, op: Op, d: nat)
    requires d < |w.marks|
  {
    var m := w.marks[d];
    match op
    case Free(id) =>
      && id in w.live && |w.area.chunks| == |m.chunks|
      && w.live[id].addr != 0 && w.live[id].End() == w.area.hwm && w.live[id].addr < m.hwm
    case Realloc(id, size, at) =>
      && id in w.live && w.live[id].depth > d && 0 < size && ArenaAlign(size) <= w.live[id].Foot()
      && !Beyond(m, w.live[id].(size := size))
    case _ => false
  }

  /** Every block that the arena can hand out now will be taken back exactly when the area is not below the
      mark. */
  lemma BelowMarkExactly(w: World, d: nat)
    requires Inv(w) && d < |w.marks|
    ensures NotBelow(w.marks[d], w.area) <==>
              forall size, at :: size > 0 && Enabled(w, Alloc(size, at)) ==>
                Beyond(w.marks[d], Step(w, Alloc(size, at)).live[w.next])
  {
    if NotBelow(w.marks[d], w.area) {
      forall size, at | size > 0 && Enabled(w, Alloc(size, at))
        ensures Beyond(w.marks[d], Step(w, Alloc(size, at)).live[w.next])
      {
        NewIsBeyond(w.marks[d], w.area, w.regions, size, at);
      }
    } else {
      assert AreaOk(w.marks[d], w.regions) && w.marks[d].chunks == w.area.chunks;
      AreaBelowLimit(w.area, w.regions);
      AlignedDifference(w.area.hwm, w.marks[d].hwm);
      assert ArenaAlign(1) == 16;
      assert Enabled(w, Alloc(1, 0));
      assert !Beyond(w.marks[d], Step(w, Alloc(1, 0)).live[w.next]);
    }
  }

  lemma NewIsBeyond(m: Area, s: Area, regions: Regions, size: Word, at: nat)
    requires RegionsOk(regions) && AreaOk(s, regions) && AllocAllowed(regions, s, size, at)
    requires m.chunks <= s.chunks && NotBelow(m, s)
    ensures AtOk(s, size, at) && NotBelow(m, Amalloc(s, size, at))
    ensures size > 0 ==> Beyond(m, NewBlock(s, size, at, 0))
  {
    AmallocArea(s, regions, size, at);
  }

  lemma ClearAlloc(w: World, id: nat, size: Word, at: nat, d: nat)
    requires Inv(w) && AllocAllowed(w.regions, w.area, size, at) && d < |w.marks| && Clear(w, d)
    ensures AtOk(w.area, size, at) && Clear(AllocAs(w, id, size, at), d)
  {
    assert w.marks[d].chunks <= w.area.chunks;
    NewIsBeyond(w.marks[d], w.area, w.regions, size, at);
  }

  lemma ClearFree(w: World, id: nat, d: nat)
    requires Inv(w) && d < |w.marks| && Clear(w, d) && Enabled(w, Free(id))
    ensures !Undercuts(w, Free(id), d) ==> Clear(DoFree(w, id), d)
    ensures Undercuts(w, Free(id), d) ==> !NotBelow(w.marks[d], DoFree(w, id).area)
  {
    var b, v := w.live[id], DoFree(w, id);
    assert Placed(w.area, w.regions, b);
    assert w.marks[d].chunks <= w.area.chunks;
    assert Add(b.addr, b.Foot()) == b.End();
    assert v.area == if b.addr != 0 && b.End() == w.area.hwm then w.area.(hwm := b.addr) else w.area;
  }

  /** One block replaced, the area not lowered. */
  lemma ClearPut(w: World, v: World, id: nat, b: Block, d: nat)
    requires d < |w.marks| && Clear(w, d) && v.marks == w.marks && v.live == w.live[id := b]
    requires NotBelow(w.marks[d], v.area)
    ensures (b.depth > d && b.size > 0 ==> Beyond(w.marks[d], b)) ==> Clear(v, d)
    ensures b.depth > d && b.size > 0 && !Beyond(w.marks[d], b) ==> !YoungerBeyond(v, d)
  {
    assert v.live[id] == b;
  }

  lemma ClearKeep(w: World, id: nat, size: Word, at: nat, d: nat)
    requires Inv(w) && d < |w.marks| && Clear(w, d) && Enabled(w, Realloc(id, size, at))
    requires PathOf(w.area, w.live[id].addr, w.live[id].size, size) == Keep
    ensures !Undercuts(w, Realloc(id, size, at), d) ==> Clear(DoRealloc(w, id, size, at), d)
    ensures Undercuts(w, Realloc(id, size, at), d) ==> !YoungerBeyond(DoRealloc(w, id, size, at), d)
  {
    ClearPut(w, DoRealloc(w, id, size, at), id, w.live[id].(size := size), d);
  }

  lemma ClearExtend(w: World, id: nat, size: Word, at: nat, d: nat)
    requires Inv(w) && d < |w.marks| && Clear(w, d) && Enabled(w, Realloc(id, size, at))
    requires PathOf(w.area, w.live[id].addr, w.live[id].size, size) == Extend
    ensures Clear(DoRealloc(w, id, size, at), d)
  {
    var b, v := w.live[id], DoRealloc(w, id, size, at);
    assert w.marks[d].chunks <= w.area.chunks;
    ExtendPath(w, id, size);
    var nb := Block(b.addr, size, |w.marks|, InChunk(LastIndex(w.area)));
    assert v.area == w.area.(hwm := w.area.hwm + (ArenaAlign(size) - ArenaAlign(b.size)));
    assert nb.End() == v.area.hwm;
    ClearPut(w, v, id, nb, d);
  }

  lemma ClearMove(w: World, id: nat, size: Word, at: nat, d: nat)
    requires Inv(w) && d < |w.marks| && Clear(w, d) && Enabled(w, Realloc(id, size, at))
    requires PathOf(w.area, w.live[id].addr, w.live[id].size, size) == Move
    ensures Clear(DoRealloc(w, id, size, at), d)
  {
    var v, y := DoRealloc(w, id, size, at), ArenaAlign(size);
    assert w.marks[d].chunks <= w.area.chunks;
    MoveTarget(w, id, size, at);
    MoveAllowed(w, id, size, at);
    MoveInv(w, id, size, at);
    AlignTwice(size);
    NewIsBeyond(w.marks[d], w.area, w.regions, y, at);
    ClearPut(w, v, id, Block(AmallocPtr(w.area, y, at), size, |w.marks|, InChunk(LastIndex(v.area))), d);
  }

  lemma ClearFresh(w: World, id: nat, size: Word, at: nat, d: nat)
    requires Inv(w) && d < |w.marks| && Clear(w, d) && Enabled(w, Realloc(id, size, at))
    requires PathOf(w.area, w.live[id].addr, w.live[id].size, size) == Fresh
    ensures Clear(DoRealloc(w, id, size, at), d)
  {
    assert Placed(w.area, w.regions, w.live[id]);
    FreshIsAlloc(w, id, size, at);
    ClearAlloc(w, id, size, at, d);
  }

  lemma ClearRealloc(w: World, id: nat, size: Word, at: nat, d: nat)
    requires Inv(w) && d < |w.marks| && Clear(w, d) && Enabled(w, Realloc(id, size, at))
    ensures !Undercuts(w, Realloc(id, size, at), d) ==> Clear(DoRealloc(w, id, size, at), d)
    ensures Undercuts(w, Realloc(id, size, at), d) ==> !YoungerBeyond(DoRealloc(w, id, size, at), d)
  {
    assert Placed(w.area, w.regions, w.live[id]);
    match PathOf(w.area, w.live[id].addr, w.live[id].size, size)
    case Fresh => ClearFresh(w, id, size, at, d);
    case Keep => ClearKeep(w, id, size, at, d);
    case Extend => ClearExtend(w, id, size, at, d);
    case Move => ClearMove(w, id, size, at, d);
  }

  lemma ClearUndo(w: World, v: World, d: nat)
    requires Inv(w) && w.marks != [] && d < |v.marks| <= |w.marks| && Clear(w, d)
    requires v.area == w.marks[|w.marks| - 1] && v.marks == w.marks[..|v.marks|]
    requires v.live == Survivors(w.live, |w.marks| - 1)
    ensures Clear(v, d)
  {
  }

  lemma ClearReset(w: World, d: nat)
    requires Inv(w) && d < |w.marks| && ResetSafe(w) && Clear(w, d)
    ensures Clear(DoReset(w), d)
  {
    ResetInv(w);
    ClearUndo(w, DoReset(w), d);
  }

  lemma ClearRelease(w: World, d: nat)
    requires Inv(w) && d < |w.marks| - 1 && ResetSafe(w) && Clear(w, d)
    ensures Clear(DoRelease(w), d)
  {
    ReleaseInv(w);
    ClearUndo(w, DoRelease(w), d);
  }

  /** One step of any kind: the undercutting calls are the only ones that matter. */
  lemma ClearStep(w: World, op: Op, d: nat)
    requires Inv(w) && Enabled(w, op) && d < |w.marks| && d < |Step(w, op).marks| && Clear(w, d)
    ensures !Undercuts(w, op, d) ==> Clear(Step(w, op), d)
    ensures Undercuts(w, op, d) ==> !YoungerBeyond(Step(w, op), d) || !NotBelow(w.marks[d], Step(w, op).area)
  {
    match op
    case Alloc(size, at) => ClearAlloc(w, w.next, size, at, d);
    case Free(id) => ClearFree(w, id, d);
    case Realloc(id, size, at) => ClearRealloc(w, id, size, at, d);
    case Reset => ClearReset(w, d);
    case Release => ClearRelease(w, d);
    case HeapAlloc(size, at) => ClearPut(w, Step(w, op), w.next, Block(at, size, 0, OnHeap), d);
    case _ =>
  }

  ghost predicate EverUndercut(w: World, ops: seq<Op>, d: nat)
    requires RunEnabled(w, ops) && StaysAbove(w, ops, d)
    decreases |ops|
  {
    ops != [] && (Undercuts(w, ops[0], d) || EverUndercut(Step(w, ops[0]), ops[1..], d))
  }

  ghost predicate AlwaysTakesAll(w: World, ops: seq<Op>, d: nat)
    requires RunEnabled(w, ops) && StaysAbove(w, ops, d)
    decreases |ops|
  {
    TakesAll(w, d) && (ops != [] ==> AlwaysTakesAll(Step(w, ops[0]), ops[1..], d))
  }

  lemma MarkKept(w: World, op: Op, d: nat)
    requires Enabled(w, op) && d < |w.marks| && d < |Step(w, op).marks|
    ensures Step(w, op).marks[d] == w.marks[d]
  {
  }

  /** Over a run: the mark would at any moment take back all that is younger exactly when no call undercuts
      it. */
  lemma {:induction false} TakesAllExactly(w: World, ops: seq<Op>, d: nat)
    requires Inv(w) && RunEnabled(w, ops) && StaysAbove(w, ops, d) && Clear(w, d)
    ensures AlwaysTakesAll(w, ops, d) <==> !EverUndercut(w, ops, d)
    ensures !EverUndercut(w, ops, d) ==> |Run(w, ops).marks| > d && Clear(Run(w, ops), d)
    decreases |ops|
  {
    BelowMarkExactly(w, d);
    if ops != [] {
      var v := Step(w, ops[0]);
      StepInv(w, ops[0]);
      ClearStep(w, ops[0], d);
      if Undercuts(w, ops[0], d) {
        MarkKept(w, ops[0], d);
        BelowMarkExactly(v, d);
        assert !TakesAll(v, d);
        assert !AlwaysTakesAll(v, ops[1..], d);
      } else {
        TakesAllExactly(v, ops[1..], d);
      }
    }
  }

  lemma BracketStartsClear(w: World)
    requires Inv(w)
    ensures Clear(Step(w, PushMark), |w.marks|)
  {
  }

  /** Throughout a bracket its mark would take back all that is younger exactly when no call in it undercuts
      the mark. */
  lemma BracketTakesAllExactly(w: World, ops: seq<Op>)
    requires Inv(w) && Bracket(w, ops)
    ensures AlwaysTakesAll(Step(w, PushMark), ops, |w.marks|) <==> !EverUndercut(Step(w, PushMark), ops, |w.marks|)
  {
    StepInv(w, PushMark);
    BracketStartsClear(w);
    TakesAllExactly(Step(w, PushMark), ops, |w.marks|);
  }

  /** Without undercutting calls, undoing the mark takes back the memory of exactly the arena blocks that it
      drops: those allocated or enlarged since. */
  lemma BracketTakesBack(w: World, ops: seq<Op>, id: nat)
    requires Inv(w) && Bracket(w, ops) && Enabled(Inside(w, ops), Release)
    requires !EverUndercut(Step(w, PushMark), ops, |w.marks|)
    requires var v := Inside(w, ops); id in v.live && v.live[id].home.InChunk? && v.live[id].size > 0
    ensures var v := Inside(w, ops);
            && (Reusable(Step(v, Release), v.live[id]) <==> id !in Step(v, Release).live)
            && (Reusable(Step(v, Release), v.live[id]) <==> id !in w.live || EverEnlarged(Step(w, PushMark), ops, id))
  {
    var v := Inside(w, ops);
    StepInv(w, PushMark);
    InsideBracket(w, ops);
    BracketStartsClear(w);
    TakesAllExactly(Step(w, PushMark), ops, |w.marks|);
    BracketDropsYounger(w, ops, id);
    ReleaseUndoes(v);
    TakenBackExactly(v, DoRelease(v), id);
    ClearMeansTakenBack(v, DoRelease(v), id);
  }

  lemma ClearMeansTakenBack(v: World, u: World, id: nat)
    requires Inv(v) && v.marks != [] && Clear(v, |v.marks| - 1) && Undone(v, u)
    requires id in v.live && v.live[id].home.InChunk? && v.live[id].size > 0
    ensures Beyond(u.area, v.live[id]) <==> v.live[id].depth > |v.marks| - 1
  {
    var d := |v.marks| - 1;
    if v.live[id].depth <= d {
      assert Placed(v.marks[d], v.regions, v.live[id]);
    }
  }

  // ----- undercutting happens -----

  /** A process that has allocated 16 bytes, at 4112. */
  function OneBlock(m: Mem): World {
    var s := Area([ChunkRec(4096, CHUNK_SIZE)], 4096, 4128, 4112 + CHUNK_SIZE, CHUNK_SIZE + 16);
    World(map[4096 := CHUNK_SIZE + 16], m, s, map[0 := Block(4112, 16, 0, InChunk(0))], [], 1)
  }

  lemma OneBlockReached(m: Mem)
    ensures Enabled(Start(m), Alloc(16, 4096)) && Step(Start(m), Alloc(16, 4096)) == OneBlock(m)
    ensures Inv(OneBlock(m))
  {
    StartInv(m);
    AlignedIsMod(4096);
    StepInv(Start(m), Alloc(16, 4096));
    assert Step(Start(m), Alloc(16, 4096)) == OneBlock(m);
  }

  lemma BracketOfTwo(w: World, a: Op, b: Op)
    requires var u := Step(w, PushMark); Enabled(u, a) && Enabled(Step(u, a), b)
    requires var u := Step(w, PushMark); u.marks == Step(u, a).marks == Step(Step(u, a), b).marks
    ensures Bracket(w, [a, b]) && Inside(w, [a, b]) == Step(Step(Step(w, PushMark), a), b)
    ensures var u := Step(w, PushMark); var d := |w.marks|;
            EverUndercut(u, [a, b], d) <==> Undercuts(u, a, d) || Undercuts(Step(u, a), b, d)
  {
    var u := Step(w, PushMark);
    RunOfTwo(u, a, b);
    assert [a, b][1..] == [b] && [b][1..] == [];
    var v := Step(u, a);
    assert StaysAbove(Step(v, b), [], |w.marks|);
    assert StaysAbove(v, [b], |w.marks|);
    assert EverUndercut(v, [b], |w.marks|) <==> Undercuts(v, b, |w.marks|);
  }

  lemma YoungerWithin(v: World, id: nat)
    requires Inv(v) && v.marks != [] && ResetSafe(v) && id in v.live && v.live[id].depth >= |v.marks|
    requires v.live[id].size > 0 && !Beyond(v.marks[|v.marks| - 1], v.live[id])
    ensures Enabled(v, Release) && id !in Step(v, Release).live && !Reusable(Step(v, Release), v.live[id])
  {
    ReleaseUndoes(v);
    assert Placed(v.area, v.regions, v.live[id]);
    TakenBackExactly(v, DoRelease(v), id);
    assert Step(v, Release) == DoRelease(v);
  }

  function Marked(m: Mem): World { OneBlock(m).(marks := [OneBlock(m).area]) }

  lemma MarkedReached(m: Mem)
    ensures Inv(OneBlock(m)) && Inv(Marked(m)) && Step(OneBlock(m), PushMark) == Marked(m)
  {
    OneBlockReached(m);
    assert Step(OneBlock(m), PushMark) == Marked(m);
    StepInv(OneBlock(m), PushMark);
  }

  lemma GapFreed(m: Mem)
    ensures var u := Marked(m);
            Enabled(u, Free(0)) && Undercuts(u, Free(0), 0)
            && Step(u, Free(0)) == u.(area := u.area.(hwm := 4112), live := map[])
  {
    assert ArenaAlign(16) == 16;
    var u := Marked(m);
    assert Step(u, Free(0)).live == map[];
  }

  lemma GapFilled(m: Mem)
    ensures var u := Marked(m);
            var f := u.(area := u.area.(hwm := 4112), live := map[]);
            Enabled(f, Alloc(16, 0))
            && Step(f, Alloc(16, 0)) == u.(live := map[1 := Block(4112, 16, 1, InChunk(0))], next := 2)
  {
    assert ArenaAlign(16) == 16;
  }

  /** Undercutting makes a difference. Free the last block below the mark and allocate again: undoing the mark
      drops the new block but leaves it its memory, as the high-water mark goes back up above it. */
  lemma GapBlockKeepsMemory(m: Mem)
    ensures var w, ops, b := OneBlock(m), [Free(0), Alloc(16, 0)], Block(4112, 16, 1, InChunk(0));
            && Bracket(w, ops) && EverUndercut(Step(w, PushMark), ops, 0)
            && Inside(w, ops).live == map[1 := b] && Enabled(Inside(w, ops), Release)
            && 1 !in Step(Inside(w, ops), Release).live && !Reusable(Step(Inside(w, ops), Release), b)
  {
    MarkedReached(m);
    var w, u := OneBlock(m), Marked(m);
    GapFreed(m);
    GapFilled(m);
    StepInv(u, Free(0));
    StepInv(Step(u, Free(0)), Alloc(16, 0));
    var v := Step(Step(u, Free(0)), Alloc(16, 0));
    BracketOfTwo(w, Free(0), Alloc(16, 0));
    YoungerWithin(v, 1);
  }

  lemma BlockExtended(m: Mem)
    ensures var u := Marked(m);
            && Enabled(u, Realloc(0, 32, 0))
            && Step(u, Realloc(0, 32, 0)) ==
                  u.(area := u.area.(hwm := 4144), live := map[0 := Block(4112, 32, 1, InChunk(0))])
  {
    assert ArenaAlign(16) == 16 && ArenaAlign(32) == 32;
  }

  lemma BlockShrunk(m: Mem)
    ensures var u := Marked(m);
            var e := u.(area := u.area.(hwm := 4144), live := map[0 := Block(4112, 32, 1, InChunk(0))]);
            && Enabled(e, Realloc(0, 16, 0)) && Undercuts(e, Realloc(0, 16, 0), 0)
            && Step(e, Realloc(0, 16, 0)) == e.(live := map[0 := Block(4112, 16, 1, InChunk(0))])
  {
    assert ArenaAlign(16) == 16 && ArenaAlign(32) == 32;
  }

  /** So does extending the last block over the mark and shrinking it again: the block is dropped, though it
      lies where it did before the mark, in memory that stays in use. */
  lemma ShrunkBlockKeepsMemory(m: Mem)
    ensures var w, ops, b := OneBlock(m), [Realloc(0, 32, 0), Realloc(0, 16, 0)], Block(4112, 16, 1, InChunk(0));
            && Bracket(w, ops) && EverUndercut(Step(w, PushMark), ops, 0)
            && Inside(w, ops).live == map[0 := b] && Enabled(Inside(w, ops), Release)
            && 0 !in Step(Inside(w, ops), Release).live && !Reusable(Step(Inside(w, ops), Release), b)
  {
    MarkedReached(m);
    var w, u := OneBlock(m), Marked(m);
    BlockExtended(m);
    BlockShrunk(m);
    var e := Step(u, Realloc(0, 32, 0));
    StepInv(u, Realloc(0, 32, 0));
    StepInv(e, Realloc(0, 16, 0));
    BracketOfTwo(w, Realloc(0, 32, 0), Realloc(0, 16, 0));
    YoungerWithin(Step(e, Realloc(0, 16, 0)), 0);
  }
}
