/** Nothing leaks: who holds each region of the C heap, over whole runs of the arena and of arrays. */
module Ownership {
  import opened Words
  import opened Memory
  import opened ArenaModel
  import opened ArenaSafety
  import opened ArenaRuns
  import opened ArrayMemory
  import opened ArrayModel
  import opened ArrayRuns
  import opened ArraySystems

  // ----- the arena -----

  ghost predicate OnHeapAt(live: map<nat, Block>, b: nat) {
    exists id :: id in live && live[id].home.OnHeap? && live[id].addr == b
  }

  /** Every region of the C heap is a listed chunk or a client's C-heap block. */
  ghost predicate NoLeak(w: World) {
    forall b :: b in w.regions ==> b in Bases(w.area.chunks) || OnHeapAt(w.live, b)
  }

  /** Conversely, listed chunks and blocks are regions, of the sizes they should have. */
  lemma HeldIsRegion(w: World, b: nat)
    requires Inv(w)
    ensures b in Bases(w.area.chunks) || OnHeapAt(w.live, b) ==> b in w.regions
    ensures forall i :: 0 <= i < |w.area.chunks| && w.area.chunks[i].base == b ==>
              b in w.regions && w.regions[b] == 16 + w.area.chunks[i].len
    ensures forall id :: id in w.live && w.live[id].home.OnHeap? && w.live[id].addr == b ==>
              b in w.regions && w.regions[b] == w.live[id].size
  {
    InBases(w.area.chunks, b);
    forall id | id in w.live ensures Placed(w.area, w.regions, w.live[id]) {
    }
  }

  /** C-heap blocks stay, but for the one that is freed. */
  lemma HeapBlocksStay(w: World, op: Op, id: nat)
    requires Inv(w) && Enabled(w, op) && id in w.live && w.live[id].home.OnHeap? && op != HeapFree(id)
    ensures id in Step(w, op).live && Step(w, op).live[id] == w.live[id]
  {
    assert Placed(w.area, w.regions, w.live[id]);
  }

  /** The regions that a step takes from the C heap, and what it takes them for. */
  lemma RegionsGained(w: World, op: Op, b: nat)
    requires Inv(w) && Enabled(w, op) && b in Step(w, op).regions && b !in w.regions
    ensures b in Bases(Step(w, op).area.chunks) || OnHeapAt(Step(w, op).live, b)
  {
    var v := Step(w, op);
    match op
    case Alloc(size, at) =>
      AmallocArea(w.area, w.regions, size, at);
      AppendedBase(w.area.chunks, v.area.chunks, at);
    case Realloc(id, size, at) => ReallocGained(w, id, size, at, b);
    case HeapAlloc(size, at) => assert v.live[w.next].addr == b;
    case _ =>
  }

  lemma AppendedBase(cs: seq<ChunkRec>, all: seq<ChunkRec>, at: nat)
    ensures all != [] && all[|all| - 1].base == at ==> at in Bases(all)
  {
    InBases(all, at);
  }

  lemma ReallocGained(w: World, id: nat, size: Word, at: nat, b: nat)
    requires Inv(w) && Enabled(w, Realloc(id, size, at))
    requires b in DoRealloc(w, id, size, at).regions && b !in w.regions
    ensures b in Bases(DoRealloc(w, id, size, at).area.chunks)
  {
    var cs := DoRealloc(w, id, size, at).area.chunks;
    var k := w.live[id];
    assert Placed(w.area, w.regions, k);
    match PathOf(w.area, k.addr, k.size, size)
    case Fresh =>
      AmallocArea(w.area, w.regions, size, at);
      AppendedBase(w.area.chunks, cs, at);
    case Move =>
      MoveAllowed(w, id, size, at);
      MoveInv(w, id, size, at);
      AmallocArea(w.area, w.regions, ArenaAlign(size), at);
      AppendedBase(w.area.chunks, cs, at);
    case _ =>
  }

  lemma PrefixBases(cs: seq<ChunkRec>, all: seq<ChunkRec>, b: nat)
    requires cs <= all && b in Bases(cs)
    ensures b in Bases(all)
  {
    InBases(cs, b);
    InBases(all, b);
    var i :| 0 <= i < |cs| && cs[i].base == b;
    assert all[i].base == b;
  }

  lemma BasesOfBoth(kept: seq<ChunkRec>, gone: seq<ChunkRec>, b: nat)
    ensures b in Bases(kept + gone) ==> b in Bases(kept) || b in Bases(gone)
  {
    InBases(kept + gone, b);
    InBases(kept, b);
    InBases(gone, b);
    if i :| 0 <= i < |kept + gone| && (kept + gone)[i].base == b {
      if i < |kept| {
        assert kept[i].base == b;
      } else {
        assert gone[i - |kept|].base == b;
      }
    }
  }

  /** A listed chunk that is not freed stays listed. */
  lemma ListedStays(w: World, op: Op, b: nat)
    requires Inv(w) && Enabled(w, op) && b in Bases(w.area.chunks) && b in Step(w, op).regions
    ensures b in Bases(Step(w, op).area.chunks)
  {
    match op
    case Alloc(size, at) =>
      AmallocArea(w.area, w.regions, size, at);
      PrefixBases(w.area.chunks, Step(w, op).area.chunks, b);
    case Realloc(id, size, at) => ListedAfterRealloc(w, id, size, at, b);
    case Reset => ListedAfterReset(w, b);
    case Release => ListedAfterReset(w, b);
    case _ =>
  }

  lemma ListedAfterRealloc(w: World, id: nat, size: Word, at: nat, b: nat)
    requires Inv(w) && Enabled(w, Realloc(id, size, at)) && b in Bases(w.area.chunks)
    ensures b in Bases(DoRealloc(w, id, size, at).area.chunks)
  {
    var k := w.live[id];
    match PathOf(w.area, k.addr, k.size, size)
    case Fresh =>
      AmallocArea(w.area, w.regions, size, at);
      PrefixBases(w.area.chunks, DoRealloc(w, id, size, at).area.chunks, b);
    case Move =>
      MoveAllowed(w, id, size, at);
      MoveInv(w, id, size, at);
      AmallocArea(w.area, w.regions, ArenaAlign(size), at);
      PrefixBases(w.area.chunks, DoRealloc(w, id, size, at).area.chunks, b);
    case _ =>
  }

  lemma ListedAfterReset(w: World, b: nat)
    requires Inv(w) && w.marks != [] && ResetSafe(w) && b in Bases(w.area.chunks) && b in DoReset(w).regions
    ensures b in Bases(DoReset(w).area.chunks)
  {
    var gone := ResetSplit(w);
    BasesOfBoth(w.marks[|w.marks| - 1].chunks, gone, b);
  }

  lemma NoLeakStep(w: World, op: Op)
    requires Inv(w) && NoLeak(w) && Enabled(w, op)
    ensures NoLeak(Step(w, op))
  {
    var v := Step(w, op);
    forall b | b in v.regions ensures b in Bases(v.area.chunks) || OnHeapAt(v.live, b) {
      if b !in w.regions {
        RegionsGained(w, op, b);
      } else if b in Bases(w.area.chunks) {
        ListedStays(w, op, b);
      } else {
        HeapBlockStaysHeld(w, op, b);
      }
    }
  }

  lemma HeapBlockStaysHeld(w: World, op: Op, b: nat)
    requires Inv(w) && Enabled(w, op) && OnHeapAt(w.live, b) && b in Step(w, op).regions
    ensures OnHeapAt(Step(w, op).live, b)
  {
    var id :| id in w.live && w.live[id].home.OnHeap? && w.live[id].addr == b;
    assert op != HeapFree(id);
    HeapBlocksStay(w, op, id);
    assert Step(w, op).live[id].addr == b;
  }

  lemma {:induction false} NoLeakRun(w: World, ops: seq<Op>)
    requires Inv(w) && NoLeak(w) && RunEnabled(w, ops)
    ensures NoLeak(Run(w, ops))
    decreases |ops|
  {
    if ops != [] {
      StepInv(w, ops[0]);
      NoLeakStep(w, ops[0]);
      NoLeakRun(Step(w, ops[0]), ops[1..]);
    }
  }

  /** In every reachable state, after whatever allocations, frees, resizes, resets and destructions, the regions in
      use are exactly the listed chunks and the clients' C-heap blocks: none is lost, none is held twice, and each
      has the size that its holder knows. */
  lemma ReachableHoldings(m: Mem, ops: seq<Op>, b: nat)
    requires RunEnabled(Start(m), ops)
    ensures var w := Run(Start(m), ops);
            && (b in w.regions <==> b in Bases(w.area.chunks) || OnHeapAt(w.live, b))
            && !(b in Bases(w.area.chunks) && OnHeapAt(w.live, b))
            && (forall i :: 0 <= i < |w.area.chunks| && w.area.chunks[i].base == b ==>
                  b in w.regions && w.regions[b] == 16 + w.area.chunks[i].len)
            && (forall id :: id in w.live && w.live[id].home.OnHeap? && w.live[id].addr == b ==>
                  b in w.regions && w.regions[b] == w.live[id].size)
  {
    StartInv(m);
    RunSafe(Start(m), ops);
    NoLeakRun(Start(m), ops);
    var w := Run(Start(m), ops);
    HeldIsRegion(w, b);
    HeldOnce(w, b);
  }

  lemma HeldOnce(w: World, b: nat)
    requires Inv(w)
    ensures !(b in Bases(w.area.chunks) && OnHeapAt(w.live, b))
  {
    InBases(w.area.chunks, b);
    if id :| id in w.live && w.live[id].home.OnHeap? && w.live[id].addr == b {
      assert Placed(w.area, w.regions, w.live[id]);
    }
  }

  // ----- arrays -----

  /** The array has a C-heap buffer. */
  predicate OwnsHeap(a: Arr) { a.onHeap && a.hasBuf }

  ghost predicate Owned(s: Sys, id: nat) {
    exists n :: n in s.arrs && OwnsHeap(s.arrs[n]) && s.arrs[n].buf == id
  }

  /** What becomes of the C-heap blocks in an array operation. */
  ghost predicate Exchanged(w: World, a: Arr, u: World, b: Arr) {
    && (forall id :: id in w.live && w.live[id].home.OnHeap? && !(OwnsHeap(a) && id == a.buf) ==>
          id in u.live && u.live[id] == w.live[id])
    && (forall id :: id in u.live && u.live[id].home.OnHeap? && !(OwnsHeap(b) && id == b.buf) ==>
          id in w.live && w.live[id] == u.live[id])
    && (OwnsHeap(a) && !(OwnsHeap(b) && b.buf == a.buf) ==> a.buf !in u.live && Data(w, a) !in u.regions)
    && (OwnsHeap(b) ==> b.buf in u.live && u.live[b.buf].home.OnHeap?)
  }

  /** A new block comes, and the old buffer, if it was a C-heap block, goes. */
  lemma SwapExchanges(w: World, f: World, a: Arr, v: World, b: Arr)
    requires w.next !in w.live && f.live.Keys == w.live.Keys + {w.next} && f.live == w.live[w.next := f.live[w.next]]
    requires f.live[w.next].home.OnHeap? <==> a.onHeap
    requires b.onHeap == a.onHeap && b.hasBuf && b.buf == w.next
    requires v.live == if OwnsHeap(a) then f.live - {a.buf} else f.live
    requires OwnsHeap(a) ==> a.buf in w.live && v.regions == f.regions - {w.live[a.buf].addr}
    ensures Exchanged(w, a, v, b)
  {
  }

  lemma FilledFields(w: World, a: Arr, j: nat, at: nat)
    requires Inv(w) && ArrOk(w, a) && GrowAllowed(w, a, j, at)
    ensures var f := Filled(w, a, j, at);
            && w.next !in w.live && w.next in f.live && f.live == w.live[w.next := f.live[w.next]]
            && (f.live[w.next].home.OnHeap? <==> a.onHeap)
  {
    AllocatedEffect(w, a, j, at);
  }

  /** Growing a C-heap array gives its old buffer back and holds the new one; no other C-heap block is touched. */
  lemma GrowExchanges(w: World, a: Arr, j: nat, at: nat)
    requires Inv(w) && ArrOk(w, a) && GrowAllowed(w, a, j, at)
    ensures Exchanged(w, a, GrowWorld(w, a, j, at), GrowArr(w, a, j))
  {
    FilledFields(w, a, j, at);
    SwapExchanges(w, Filled(w, a, j, at), a, GrowWorld(w, a, j, at), GrowArr(w, a, j));
  }

  /** In particular the old C-heap buffer is a block no more, and its region is free. */
  lemma GrowFreesOld(w: World, a: Arr, j: nat, at: nat)
    requires Inv(w) && ArrOk(w, a) && GrowAllowed(w, a, j, at) && a.onHeap && a.hasBuf
    ensures a.buf in w.live && Data(w, a) in w.regions
    ensures a.buf !in GrowWorld(w, a, j, at).live && Data(w, a) !in GrowWorld(w, a, j, at).regions
  {
    assert Placed(w.area, w.regions, w.live[a.buf]);
    GrowExchanges(w, a, j, at);
    GrowEffect(w, a, j, at);
  }

  /** An arena array leaves its old buffer where it was, a block like the others. */
  lemma ArenaGrowKeeps(w: World, a: Arr, j: nat, at: nat)
    requires Inv(w) && ArrOk(w, a) && GrowAllowed(w, a, j, at) && !a.onHeap
    ensures forall id :: id in w.live ==> SameBlock(w, GrowWorld(w, a, j, at), id)
  {
    FilledEffect(w, a, j, at);
  }

  /** The same blocks and buffer, whatever was written. */
  lemma WriteExchanges(w: World, a: Arr, u: World, b: Arr, v: World, c: Arr)
    requires Exchanged(w, a, u, b) && v.live == u.live && v.regions == u.regions
    requires c.onHeap == b.onHeap && c.hasBuf == b.hasBuf && c.buf == b.buf
    ensures Exchanged(w, a, v, c)
  {
  }

  lemma NothingExchanged(w: World, a: Arr)
    requires ArrOk(w, a)
    ensures Exchanged(w, a, w, a)
  {
  }

  lemma DeallocExchanges(w: World, a: Arr)
    requires Inv(w) && ArrOk(w, a)
    ensures Exchanged(w, a, DoWorld(w, a, Dealloc), DoArr(w, a, Dealloc))
  {
    if OwnsHeap(a) {
      assert a.buf in w.live && DoWorld(w, a, Dealloc) == DoHeapFree(w, a.buf);
    } else {
      assert DoWorld(w, a, Dealloc) == w;
    }
  }

  lemma RoomExchanges(w: World, a: Arr, j: nat, at: nat)
    requires Inv(w) && ArrOk(w, a) && (j >= a.max ==> GrowAllowed(w, a, j, at))
    ensures Exchanged(w, a, RoomyWorld(w, a, j, at), RoomyArr(w, a, j))
  {
    if j >= a.max {
      GrowExchanges(w, a, j, at);
    } else {
      NothingExchanged(w, a);
    }
  }

  /** Over every array operation: of the C-heap blocks, exactly the array's old buffer goes, and its region with
      it, and exactly its new buffer comes. */
  lemma ArrayExchanges(w: World, a: Arr, o: ArrayOp)
    requires Inv(w) && ArrOk(w, a) && Allowed(w, a, o)
    ensures Exchanged(w, a, DoWorld(w, a, o), DoArr(w, a, o))
  {
    match o
    case Append(e, at) =>
      RoomExchanges(w, a, a.len, at);
      WriteExchanges(w, a, RoomyWorld(w, a, a.len, at), RoomyArr(w, a, a.len), DoWorld(w, a, o), DoArr(w, a, o));
    case PutGrow(i, e, fill, at) =>
      RoomExchanges(w, a, i, at);
      WriteExchanges(w, a, RoomyWorld(w, a, i, at), RoomyArr(w, a, i), DoWorld(w, a, o), DoArr(w, a, o));
    case Dealloc => DeallocExchanges(w, a);
    case _ =>
      NothingExchanged(w, a);
      WriteExchanges(w, a, w, a, DoWorld(w, a, o), DoArr(w, a, o));
  }

  lemma NoLeakFrame(w: World, v: World)
    requires NoLeak(w) && v.regions == w.regions && v.area == w.area && v.live == w.live
    ensures NoLeak(v)
  {
  }

  lemma NoLeakGrow(w: World, a: Arr, j: nat, at: nat)
    requires Inv(w) && NoLeak(w) && ArrOk(w, a) && GrowAllowed(w, a, j, at)
    ensures NoLeak(GrowWorld(w, a, j, at))
  {
    NoLeakStep(w, BufOp(a.onHeap, Bytes(NewMax(a.max, j), a.Esz()), at));
    FilledEffect(w, a, j, at);
    var f := Filled(w, a, j, at);
    NoLeakFrame(Allocated(w, a, j, at), f);
    if OwnsHeap(a) {
      NoLeakStep(f, HeapFree(a.buf));
    }
  }

  lemma NoLeakOn(w: World, a: Arr, o: ArrayOp)
    requires Inv(w) && NoLeak(w) && ArrOk(w, a) && Allowed(w, a, o)
    ensures NoLeak(DoWorld(w, a, o))
  {
    match o
    case Append(e, at) =>
      if a.len >= a.max {
        NoLeakGrow(w, a, a.len, at);
        NoLeakFrame(GrowWorld(w, a, a.len, at), DoWorld(w, a, o));
      } else {
        NoLeakFrame(w, DoWorld(w, a, o));
      }
    case PutGrow(i, e, fill, at) =>
      if i >= a.max {
        NoLeakGrow(w, a, i, at);
        NoLeakFrame(GrowWorld(w, a, i, at), DoWorld(w, a, o));
      } else {
        NoLeakFrame(w, DoWorld(w, a, o));
      }
    case Dealloc =>
      if OwnsHeap(a) {
        NoLeakStep(w, HeapFree(a.buf));
      }
    case _ => NoLeakFrame(w, DoWorld(w, a, o));
  }

  lemma NoLeakSysStep(s: Sys, op: SysOp)
    requires SysOk(s) && NoLeak(s.w) && SysEnabled(s, op)
    ensures NoLeak(SysStep(s, op).w)
  {
    match op
    case On(n, o) => NoLeakOn(s.w, s.arrs[n], o);
    case Create(n, initial, len, filler, zero, onHeap, at) =>
      var b := BufOp(onHeap, Bytes(initial, |zero|), at);
      NoLeakStep(s.w, b);
      NoLeakFrame(Step(s.w, b), SysStep(s, op).w);
    case Other(o) => NoLeakStep(s.w, o);
  }

  // ----- C-heap blocks of other clients -----

  /** A C-heap block that is no array's buffer. */
  ghost predicate Foreign(s: Sys, id: nat) {
    id in s.w.live && s.w.live[id].home.OnHeap? && !Owned(s, id)
  }

  ghost predicate ForeignIs(s: Sys, f: set<nat>) { forall id :: Foreign(s, id) <==> id in f }

  /** The other clients' C-heap blocks, from the calls that allocate and free them. */
  function ForeignStep(f: set<nat>, next: nat, op: SysOp): set<nat> {
    if op.Other? && op.step.HeapAlloc? then f + {next}
    else if op.Other? && op.step.HeapFree? then f - {op.step.id}
    else f
  }

  ghost function ForeignRun(f: set<nat>, s: Sys, ops: seq<SysOp>): set<nat>
    requires SysRunEnabled(s, ops)
    decreases |ops|
  {
    if ops == [] then f else ForeignRun(ForeignStep(f, s.w.next, ops[0]), SysStep(s, ops[0]), ops[1..])
  }

  lemma OwnedAfterOn(s: Sys, n: nat, u: World, b: Arr, id: nat)
    requires n in s.arrs
    ensures Owned(Sys(u, s.arrs[n := b]), id) <==>
              || (OwnsHeap(b) && b.buf == id)
              || exists k :: k in s.arrs && k != n && OwnsHeap(s.arrs[k]) && s.arrs[k].buf == id
  {
    var v := Sys(u, s.arrs[n := b]);
    if OwnsHeap(b) && b.buf == id {
      assert v.arrs[n] == b;
    }
    if k :| k in s.arrs && k != n && OwnsHeap(s.arrs[k]) && s.arrs[k].buf == id {
      assert v.arrs[k] == s.arrs[k];
    }
    if Owned(v, id) {
      var k :| k in v.arrs && OwnsHeap(v.arrs[k]) && v.arrs[k].buf == id;
      assert k != n ==> v.arrs[k] == s.arrs[k];
    }
  }

  lemma ForeignOn(s: Sys, t: VecSys, n: nat, o: ArrayOp, id: nat)
    requires SysOk(s) && SysRep(s, t) && SysEnabled(s, On(n, o))
    ensures Foreign(SysStep(s, On(n, o)), id) <==> Foreign(s, id)
  {
    var a := s.arrs[n];
    var u, b := DoWorld(s.w, a, o), DoArr(s.w, a, o);
    ArrayExchanges(s.w, a, o);
    ArrayEffect(s.w, a, t.vecs[n], o);
    OwnedAfterOn(s, n, u, b, id);
    OwnedAfterOn(s, n, s.w, a, id);
    assert s.arrs[n := a] == s.arrs;
    if OwnsHeap(a) && a.buf == id {
      OthersOwn(s, n, id);
    }
  }

  /** No two arrays own one block. */
  lemma OthersOwn(s: Sys, n: nat, id: nat)
    requires SysOk(s) && n in s.arrs && OwnsHeap(s.arrs[n]) && s.arrs[n].buf == id
    ensures !exists k :: k in s.arrs && k != n && OwnsHeap(s.arrs[k]) && s.arrs[k].buf == id
  {
    forall k | k in s.arrs && k != n && OwnsHeap(s.arrs[k]) ensures s.arrs[k].buf != id {
      assert s.arrs[n].NeedsBuf() && s.arrs[k].NeedsBuf();
    }
  }

  lemma ForeignCreate(s: Sys, op: SysOp, id: nat)
    requires SysOk(s) && op.Create? && SysEnabled(s, op)
    ensures Foreign(SysStep(s, op), id) <==> Foreign(s, id)
  {
    CreatedEffect(s.w, op.initial, op.len, op.filler, op.zero, op.onHeap, op.at);
    CreatedBlocks(s.w, op);
    var u, b := SysStep(s, op).w, NewArr(s.w, op.initial, op.len, op.zero, op.onHeap);
    OwnedAfterCreate(s, op.name, u, b, id);
  }

  lemma CreatedBlocks(w: World, op: SysOp)
    requires Inv(w) && op.Create? && CreateAllowed(w, op.initial, op.len, op.filler, op.zero, op.onHeap, op.at)
    ensures var u := Created(w, op.initial, op.len, op.filler, op.zero, op.onHeap, op.at);
            && w.next !in w.live && w.next in u.live && u.live == w.live[w.next := u.live[w.next]]
            && (u.live[w.next].home.OnHeap? <==> op.onHeap)
  {
    BlockForNew(w, Bytes(op.initial, |op.zero|), op.onHeap, op.at);
  }

  lemma OwnedAfterCreate(s: Sys, n: nat, u: World, b: Arr, id: nat)
    requires n !in s.arrs
    ensures Owned(Sys(u, s.arrs[n := b]), id) <==> (OwnsHeap(b) && b.buf == id) || Owned(s, id)
  {
    var v := Sys(u, s.arrs[n := b]);
    if OwnsHeap(b) && b.buf == id {
      assert v.arrs[n] == b;
    }
    if Owned(s, id) {
      var k :| k in s.arrs && OwnsHeap(s.arrs[k]) && s.arrs[k].buf == id;
      assert v.arrs[k] == s.arrs[k];
    }
    if Owned(v, id) {
      var k :| k in v.arrs && OwnsHeap(v.arrs[k]) && v.arrs[k].buf == id;
      assert k != n ==> v.arrs[k] == s.arrs[k];
    }
  }

  /** C-heap arrays stand whatever the other clients and the marks do. */
  lemma OwnedAfterOther(s: Sys, t: VecSys, o: Op, id: nat)
    requires SysOk(s) && SysRep(s, t) && SysEnabled(s, Other(o))
    ensures Owned(SysStep(s, Other(o)), id) <==> Owned(s, id)
  {
    var v := SysStep(s, Other(o));
    if k :| k in s.arrs && OwnsHeap(s.arrs[k]) && s.arrs[k].buf == id {
      OtherKeepsArray(s.w, o, s.arrs[k], t.vecs[k]);
      assert v.arrs[k] == s.arrs[k];
    }
    if k :| k in v.arrs && OwnsHeap(v.arrs[k]) && v.arrs[k].buf == id {
      assert s.arrs[k] == v.arrs[k];
    }
  }

  /** The C-heap blocks after a step of the arena and its clients. */
  lemma HeapBlocksAfter(w: World, o: Op, id: nat)
    requires Inv(w) && Enabled(w, o)
    ensures id in Step(w, o).live && Step(w, o).live[id].home.OnHeap? <==>
              if o.HeapAlloc? && id == w.next then true
              else id in w.live && w.live[id].home.OnHeap? && o != HeapFree(id)
  {
    if id in w.live && w.live[id].home.OnHeap? && o != HeapFree(id) {
      HeapBlocksStay(w, o, id);
    }
    match o
    case Realloc(k, size, at) =>
    case _ =>
  }

  lemma ForeignOther(s: Sys, t: VecSys, o: Op, id: nat)
    requires SysOk(s) && SysRep(s, t) && SysEnabled(s, Other(o))
    ensures Foreign(SysStep(s, Other(o)), id) <==>
              if o.HeapAlloc? && id == s.w.next then true else Foreign(s, id) && o != HeapFree(id)
  {
    HeapBlocksAfter(s.w, o, id);
    OwnedAfterOther(s, t, o, id);
    if o.HeapAlloc? && id == s.w.next {
      NextIsFree(s, id);
    }
  }

  lemma NextIsFree(s: Sys, id: nat)
    requires SysOk(s) && id == s.w.next
    ensures !Owned(s, id)
  {
    forall k | k in s.arrs && OwnsHeap(s.arrs[k]) ensures s.arrs[k].buf != id {
      assert ArrOk(s.w, s.arrs[k]) && s.arrs[k].NeedsBuf();
    }
  }

  lemma ForeignAfterStep(s: Sys, t: VecSys, f: set<nat>, op: SysOp)
    requires SysOk(s) && SysRep(s, t) && SysEnabled(s, op) && ForeignIs(s, f)
    ensures ForeignIs(SysStep(s, op), ForeignStep(f, s.w.next, op))
  {
    forall id ensures Foreign(SysStep(s, op), id) <==> id in ForeignStep(f, s.w.next, op) {
      match op
      case On(n, o) => ForeignOn(s, t, n, o, id);
      case Create(n, initial, len, filler, zero, onHeap, at) => ForeignCreate(s, op, id);
      case Other(o) => ForeignOther(s, t, o, id);
    }
  }

  lemma {:induction false} HoldingsRun(s: Sys, t: VecSys, f: set<nat>, ops: seq<SysOp>)
    requires SysOk(s) && SysRep(s, t) && NoLeak(s.w) && ForeignIs(s, f) && SysRunEnabled(s, ops)
    ensures SysOk(SysRun(s, ops)) && NoLeak(SysRun(s, ops).w)
    ensures ForeignIs(SysRun(s, ops), ForeignRun(f, s, ops))
    decreases |ops|
  {
    if ops != [] {
      StepInStep(s, t, ops[0]);
      NoLeakSysStep(s, ops[0]);
      ForeignAfterStep(s, t, f, ops[0]);
      HoldingsRun(SysStep(s, ops[0]), VecStep(t, ops[0]), ForeignStep(f, s.w.next, ops[0]), ops[1..]);
    }
  }

  ghost predicate BufferAt(s: Sys, b: nat) {
    exists n :: n in s.arrs && OwnsHeap(s.arrs[n]) && Data(s.w, s.arrs[n]) == b
  }

  ghost predicate HeldByOthers(s: Sys, f: set<nat>, b: nat) {
    exists id :: id in f && id in s.w.live && s.w.live[id].addr == b
  }

  /** Nothing leaks from arrays either. Over every run of arrays, marks and other clients the regions in use are
      exactly the listed chunks, the buffers of the C-heap arrays, and the blocks that others have obtained from the
      C heap and not freed. */
  lemma ReachableBuffers(m: Mem, ops: seq<SysOp>, b: nat)
    requires SysRunEnabled(Sys(Start(m), map[]), ops)
    ensures var s := SysRun(Sys(Start(m), map[]), ops);
            b in s.w.regions <==>
              || b in Bases(s.w.area.chunks) || BufferAt(s, b)
              || HeldByOthers(s, ForeignRun({}, Sys(Start(m), map[]), ops), b)
  {
    var s0 := Sys(Start(m), map[]);
    StartInv(m);
    HoldingsRun(s0, VecSys(map[], 0), {}, ops);
    var s := SysRun(s0, ops);
    HeldIsRegion(s.w, b);
    HeapBlockHolder(s, ForeignRun({}, s0, ops), b);
  }

  lemma HeapBlockHolder(s: Sys, f: set<nat>, b: nat)
    requires SysOk(s) && ForeignIs(s, f)
    ensures OnHeapAt(s.w.live, b) <==> BufferAt(s, b) || HeldByOthers(s, f, b)
  {
    if id :| id in s.w.live && s.w.live[id].home.OnHeap? && s.w.live[id].addr == b {
      if Owned(s, id) {
        var n :| n in s.arrs && OwnsHeap(s.arrs[n]) && s.arrs[n].buf == id;
        assert Data(s.w, s.arrs[n]) == b;
      } else {
        assert Foreign(s, id);
      }
    }
    if n :| n in s.arrs && OwnsHeap(s.arrs[n]) && Data(s.w, s.arrs[n]) == b {
      assert ArrOk(s.w, s.arrs[n]) && s.arrs[n].NeedsBuf();
      assert s.w.live[s.arrs[n].buf].addr == b;
    }
    if id :| id in f && id in s.w.live && s.w.live[id].addr == b {
      assert Foreign(s, id);
    }
  }
}
