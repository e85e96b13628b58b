/** Whole runs of arena operations: safety, refinement of independent objects, and nested marks. */
module ArenaRuns {
  import opened Words
  import opened Memory
  import opened ArenaModel
  import opened ArenaSafety

  // ----- runs -----

  ghost predicate RunEnabled(w: World, ops: seq<Op>)
    decreases |ops|
  {
    ops == [] || (Enabled(w, ops[0]) && RunEnabled(Step(w, ops[0]), ops[1..]))
  }

  ghost function Run(w: World, ops: seq<Op>): World
    requires RunEnabled(w, ops)
    decreases |ops|
  {
    if ops == [] then w else Run(Step(w, ops[0]), ops[1..])
  }

  /** A process with an empty C heap and an arena that has not allocated. */
  function Start(m: Mem): World { World(map[], m, EMPTY, map[], [], 0) }

  lemma StartInv(m: Mem)
    ensures Inv(Start(m))
  {
  }

  /** Every reachable state is sound. */
  lemma {:induction false} RunSafe(w: World, ops: seq<Op>)
    requires Inv(w) && RunEnabled(w, ops)
    ensures Inv(Run(w, ops))
    decreases |ops|
  {
    if ops != [] {
      StepInv(w, ops[0]);
      RunSafe(Step(w, ops[0]), ops[1..]);
    }
  }

  lemma RunOfTwo(w: World, a: Op, b: Op)
    requires Enabled(w, a) && Enabled(Step(w, a), b)
    ensures RunEnabled(w, [a, b]) && Run(w, [a, b]) == Step(Step(w, a), b)
  {
    var v := Step(w, a);
    assert [a, b][1..] == [b] && [b][1..] == [];
    assert RunEnabled(Step(v, b), []) && Run(Step(v, b), []) == Step(v, b);
    assert RunEnabled(v, [b]) && Run(v, [b]) == Step(v, b);
  }

  /** In a sound state every non-empty arena block is aligned, not null, and lies inside the data of one
      listed chunk, below the high-water mark if that is the current chunk. */
  lemma BlockPlaced(w: World, i: nat, p: nat)
    requires Inv(w) && i in w.live && w.live[i].Has(p)
    ensures Aligned(w.live[i].addr) && w.live[i].addr != 0
    ensures w.live[i].home.InChunk? ==>
              exists c :: 0 <= c < |w.area.chunks|
                       && w.area.chunks[c].Bottom() <= w.live[i].addr <= p < w.live[i].End() <= w.area.chunks[c].Top()
                       && (w.area.chunks[c].base == w.area.current ==> w.live[i].End() <= w.area.hwm)
  {
    assert Placed(w.area, w.regions, w.live[i]);
    if w.live[i].home.InChunk? {
      var c, n := w.live[i].home.index, |w.area.chunks| - 1;
      assert c < n ==> Differ(w.area.chunks[c], w.area.chunks[n]);
    }
  }

  /** In a sound state distinct live blocks share no byte. */
  lemma BlocksSeparated(w: World, i: nat, j: nat, p: nat)
    requires Inv(w) && i in w.live && j in w.live && i != j && w.live[i].Has(p)
    ensures !w.live[j].Has(p)
  {
    assert Apart(w.live[i], w.live[j]);
    assert Placed(w.area, w.regions, w.live[i]);
    assert Placed(w.area, w.regions, w.live[j]);
  }

  /** The same, for every state that a run from the start can reach. */
  lemma ReachableBlockPlaced(m: Mem, ops: seq<Op>, i: nat, p: nat)
    requires RunEnabled(Start(m), ops)
    requires var w := Run(Start(m), ops); i in w.live && w.live[i].Has(p)
    ensures var w := Run(Start(m), ops);
            && Aligned(w.area.hwm) && Aligned(w.live[i].addr) && w.live[i].addr != 0
            && (w.live[i].home.InChunk? ==>
                  exists c :: 0 <= c < |w.area.chunks|
                           && w.area.chunks[c].Bottom() <= w.live[i].addr <= p
                           && p < w.live[i].End() <= w.area.chunks[c].Top()
                           && (w.area.chunks[c].base == w.area.current ==> w.live[i].End() <= w.area.hwm))
  {
    StartInv(m);
    RunSafe(Start(m), ops);
    BlockPlaced(Run(Start(m), ops), i, p);
    ReachableAligned(m, ops);
  }

  /** In every reachable state the high-water mark and the address of every block, empty ones included, are
      multiples of 16. */
  lemma ReachableAligned(m: Mem, ops: seq<Op>)
    requires RunEnabled(Start(m), ops)
    ensures var w := Run(Start(m), ops);
            Aligned(w.area.hwm) && forall id :: id in w.live ==> Aligned(w.live[id].addr)
  {
    StartInv(m);
    RunSafe(Start(m), ops);
    var w := Run(Start(m), ops);
    AreaBelowLimit(w.area, w.regions);
    forall id | id in w.live ensures Aligned(w.live[id].addr) {
      assert Placed(w.area, w.regions, w.live[id]);
    }
  }

  lemma ReachableBlocksSeparated(m: Mem, ops: seq<Op>, i: nat, j: nat, p: nat)
    requires RunEnabled(Start(m), ops)
    requires var w := Run(Start(m), ops); i in w.live && j in w.live && i != j && w.live[i].Has(p)
    ensures !Run(Start(m), ops).live[j].Has(p)
  {
    StartInv(m);
    RunSafe(Start(m), ops);
    BlocksSeparated(Run(Start(m), ops), i, j, p);
  }

  // ----- independent objects -----

  datatype Cell = Undefined | Defined(value: Byte)

  /** What a client thinks it has: a byte string, some bytes of which it has defined. */
  datatype Obj = Obj(contents: seq<Cell>, depth: nat, onHeap: bool)

  /** Objects by name. No addresses, no chunks. */
  datatype Store = Store(objs: map<nat, Obj>, depth: nat, next: nat)

  function Resize(c: seq<Cell>, n: nat): (r: seq<Cell>)
    ensures |r| == n
    ensures forall i :: 0 <= i < n ==> r[i] == if i < |c| then c[i] else Undefined
  {
    seq(n, i requires 0 <= i => if i < |c| then c[i] else Undefined)
  }

  function Restrict(objs: map<nat, Obj>, depth: nat): map<nat, Obj> {
    map id | id in objs && objs[id].depth <= depth :: objs[id]
  }

  predicate ObjEnabled(a: Store, op: Op) {
    match op
    case Alloc(size, at) => true
    case Free(id) => id in a.objs
    case Realloc(id, size, at) => id in a.objs && |a.objs[id].contents| < WORD
    case Write(id, offset, value) => id in a.objs && offset < |a.objs[id].contents|
    case PushMark => true
    case Reset => a.depth > 0
    case Release => a.depth > 0
    case HeapAlloc(size, at) => true
    case HeapFree(id) => id in a.objs
    case Destruct => true
  }

  /** The meaning of each operation on independent objects; the address `at` plays no part. */
  function ObjStep(a: Store, op: Op): Store
    requires ObjEnabled(a, op)
  {
    match op
    case Alloc(size, at) => a.(objs := a.objs[a.next := Obj(Resize([], size), a.depth, false)], next := a.next + 1)
    case Free(id) => a.(objs := a.objs - {id})
    case Realloc(id, size, at) =>
      var o := a.objs[id];
      a.(objs := a.objs[id := Obj(Resize(o.contents, size), DepthAfter(o.depth, |o.contents|, size, a.depth), false)])
    case Write(id, offset, value) =>
      var o := a.objs[id];
      a.(objs := a.objs[id := o.(contents := o.contents[offset := Defined(value)])])
    case PushMark => a.(depth := a.depth + 1)
    case Reset => a.(objs := Restrict(a.objs, a.depth - 1))
    case Release => a.(objs := Restrict(a.objs, a.depth - 1), depth := a.depth - 1)
    case HeapAlloc(size, at) => a.(objs := a.objs[a.next := Obj(Resize([], size), 0, true)], next := a.next + 1)
    case HeapFree(id) => a.(objs := a.objs - {id})
    case Destruct => a.(objs := map id | id in a.objs && a.objs[id].onHeap :: a.objs[id])
  }

  ghost predicate RepBlock(m: Mem, b: Block, o: Obj) {
    && |o.contents| == b.size && o.depth == b.depth && (o.onHeap <==> b.home.OnHeap?)
    && forall i :: 0 <= i < b.size && o.contents[i].Defined? ==> m(b.addr + i) == o.contents[i].value
  }

  /** Memory holds every defined byte of every object at its block's address. */
  ghost predicate Rep(w: World, a: Store) {
    && a.next == w.next && a.depth == |w.marks| && a.objs.Keys == w.live.Keys
    && forall id {:trigger RepBlock(w.mem, w.live[id], a.objs[id])} ::
          id in w.live ==> RepBlock(w.mem, w.live[id], a.objs[id])
  }

  lemma AllocRep(w: World, a: Store, size: Word, at: nat)
    requires Inv(w) && Enabled(w, Alloc(size, at)) && Rep(w, a)
    ensures Rep(Step(w, Alloc(size, at)), ObjStep(a, Alloc(size, at)))
  {
    var v, c := Step(w, Alloc(size, at)), ObjStep(a, Alloc(size, at));
    forall id | id in v.live ensures RepBlock(v.mem, v.live[id], c.objs[id]) {
      assert id != w.next ==> RepBlock(w.mem, w.live[id], a.objs[id]);
    }
  }

  ghost predicate SameBlock(w: World, v: World, id: nat)
    requires id in w.live
  {
    && id in v.live && v.live[id] == w.live[id]
    && forall p :: w.live[id].Has(p) ==> v.mem(p) == w.mem(p)
  }

  ghost predicate Copied(to: Mem, dst: nat, from: Mem, src: nat, n: nat) {
    forall p {:trigger to(p)} :: dst <= p < dst + n ==> to(p) == from(p - dst + src)
  }

  lemma MoveTarget(w: World, id: nat, size: Word, at: nat)
    requires Inv(w) && Enabled(w, Realloc(id, size, at))
    requires PathOf(w.area, w.live[id].addr, w.live[id].size, size) == Move
    ensures AtOk(w.area, ArenaAlign(size), at)
    ensures var b, p := w.live[id], AmallocPtr(w.area, ArenaAlign(size), at);
            && DoRealloc(w, id, size, at).mem == CopyBytes(w.mem, p, b.addr, ArenaAlign(b.size))
            && DoRealloc(w, id, size, at).live ==
                  w.live[id := Block(p, size, |w.marks|, InChunk(LastIndex(Amalloc(w.area, ArenaAlign(size), at))))]
            && ArenaAlign(b.size) < ArenaAlign(size) && b.size <= ArenaAlign(b.size)
  {
    MoveInv(w, id, size, at);
    assert Placed(w.area, w.regions, w.live[id]);
  }

  lemma MoveAllowed(w: World, id: nat, size: Word, at: nat)
    requires Enabled(w, Realloc(id, size, at))
    requires PathOf(w.area, w.live[id].addr, w.live[id].size, size) == Move
    ensures AllocAllowed(w.regions, w.area, ArenaAlign(size), at) && ArenaAlign(size) > 0
  {
    AlignTwice(size);
  }

  /** The moved block brings the old one's bytes. */
  lemma MoveBrings(w: World, id: nat, size: Word, at: nat)
    requires Inv(w) && Enabled(w, Realloc(id, size, at))
    requires PathOf(w.area, w.live[id].addr, w.live[id].size, size) == Move
    ensures var v := DoRealloc(w, id, size, at);
            Copied(v.mem, v.live[id].addr, w.mem, w.live[id].addr, w.live[id].size)
  {
    MoveTarget(w, id, size, at);
    var b := w.live[id];
    CopyIsCopied(w.mem, DoRealloc(w, id, size, at).live[id].addr, b.addr, ArenaAlign(b.size), b.size);
  }

  lemma CopyIsCopied(m: Mem, dst: nat, src: nat, n: nat, k: nat)
    requires k <= n
    ensures Copied(CopyBytes(m, dst, src, n), dst, m, src, k)
  {
  }

  /** Bytes written inside the footprint of a new block are no other block's bytes. */
  lemma MoveSpares(w: World, id: nat, size: Word, at: nat, j: nat, p: nat)
    requires Inv(w) && Enabled(w, Realloc(id, size, at)) && j in w.live && j != id && w.live[j].Has(p)
    requires PathOf(w.area, w.live[id].addr, w.live[id].size, size) == Move
    ensures DoRealloc(w, id, size, at).mem(p) == w.mem(p)
  {
    MoveTarget(w, id, size, at);
    MoveAllowed(w, id, size, at);
    AlignTwice(size);
    OutsideFreshBlock(w, ArenaAlign(size), at, j, p);
  }

  lemma OutsideFreshBlock(w: World, y: Word, at: nat, j: nat, p: nat)
    requires Inv(w) && j in w.live && w.live[j].Has(p) && y > 0
    requires AllocAllowed(w.regions, w.area, y, at)
    ensures AtOk(w.area, y, at)
    ensures !(AmallocPtr(w.area, y, at) <= p < AmallocPtr(w.area, y, at) + ArenaAlign(y))
  {
    assert Placed(w.area, w.regions, w.live[j]);
    FreshBlockApart(w.area, w.regions, y, at, w.live[j], 0);
  }

  /** Arealloc leaves every other block where it is, with its bytes. */
  lemma ReallocOthers(w: World, id: nat, size: Word, at: nat, j: nat)
    requires Inv(w) && Enabled(w, Realloc(id, size, at)) && j in w.live && j != id
    ensures SameBlock(w, DoRealloc(w, id, size, at), j)
  {
    if PathOf(w.area, w.live[id].addr, w.live[id].size, size) == Move {
      forall p | w.live[j].Has(p) ensures DoRealloc(w, id, size, at).mem(p) == w.mem(p) {
        MoveSpares(w, id, size, at, j, p);
      }
    }
  }

  lemma RepKept(m: Mem, m': Mem, b: Block, o: Obj)
    requires RepBlock(m, b, o)
    requires forall p :: b.Has(p) ==> m'(p) == m(p)
    ensures RepBlock(m', b, o)
  {
    forall i | 0 <= i < b.size && o.contents[i].Defined? ensures m'(b.addr + i) == o.contents[i].value {
      assert b.Has(b.addr + i);
    }
  }

  lemma ReallocRep(w: World, a: Store, id: nat, size: Word, at: nat)
    requires Inv(w) && Enabled(w, Realloc(id, size, at)) && Rep(w, a)
    ensures ObjEnabled(a, Realloc(id, size, at))
    ensures Rep(Step(w, Realloc(id, size, at)), ObjStep(a, Realloc(id, size, at)))
  {
    var b := w.live[id];
    assert RepBlock(w.mem, b, a.objs[id]);
    var v, c := DoRealloc(w, id, size, at), ObjStep(a, Realloc(id, size, at));
    if PathOf(w.area, b.addr, b.size, size) == Move {
      MoveRepSelf(w, a.objs[id], id, size, at);
    } else {
      StayRepSelf(w, a.objs[id], id, size, at);
    }
    forall j | j in v.live ensures RepBlock(v.mem, v.live[j], c.objs[j]) {
      if j != id {
        assert RepBlock(w.mem, w.live[j], a.objs[j]);
        ReallocOthers(w, id, size, at, j);
        RepKept(w.mem, v.mem, w.live[j], a.objs[j]);
      }
    }
  }

  /** The moved block has the old bytes up to the smaller of the two sizes. */
  lemma MoveRepSelf(w: World, o: Obj, id: nat, size: Word, at: nat)
    requires Inv(w) && Enabled(w, Realloc(id, size, at)) && RepBlock(w.mem, w.live[id], o)
    requires PathOf(w.area, w.live[id].addr, w.live[id].size, size) == Move
    ensures RepBlock(DoRealloc(w, id, size, at).mem, DoRealloc(w, id, size, at).live[id],
                     Obj(Resize(o.contents, size), |w.marks|, false))
  {
    MoveBrings(w, id, size, at);
    MoveTarget(w, id, size, at);
    var b, v := w.live[id], DoRealloc(w, id, size, at);
    CopiedRep(w.mem, v.mem, b, v.live[id], o);
  }

  lemma StayRepSelf(w: World, o: Obj, id: nat, size: Word, at: nat)
    requires Inv(w) && Enabled(w, Realloc(id, size, at)) && RepBlock(w.mem, w.live[id], o)
    requires PathOf(w.area, w.live[id].addr, w.live[id].size, size) != Move
    ensures RepBlock(DoRealloc(w, id, size, at).mem, DoRealloc(w, id, size, at).live[id],
                     Obj(Resize(o.contents, size), DepthAfter(o.depth, w.live[id].size, size, |w.marks|), false))
  {
    assert Placed(w.area, w.regions, w.live[id]);
  }

  lemma CopiedRep(m: Mem, m': Mem, b: Block, b': Block, o: Obj)
    requires RepBlock(m, b, o) && Copied(m', b'.addr, m, b.addr, b.size) && b'.home.InChunk?
    ensures RepBlock(m', b', Obj(Resize(o.contents, b'.size), b'.depth, false))
  {
    forall i | 0 <= i < b'.size && i < b.size && o.contents[i].Defined?
      ensures m'(b'.addr + i) == o.contents[i].value
    {
      assert b'.addr + i - b'.addr + b.addr == b.addr + i;
    }
  }

  lemma WriteRep(w: World, a: Store, id: nat, offset: nat, value: Byte)
    requires Inv(w) && Enabled(w, Write(id, offset, value)) && Rep(w, a)
    ensures ObjEnabled(a, Write(id, offset, value))
    ensures Rep(Step(w, Write(id, offset, value)), ObjStep(a, Write(id, offset, value)))
  {
    assert RepBlock(w.mem, w.live[id], a.objs[id]);
    var v, c := Step(w, Write(id, offset, value)), ObjStep(a, Write(id, offset, value));
    forall j | j in v.live ensures RepBlock(v.mem, v.live[j], c.objs[j]) {
      assert RepBlock(w.mem, w.live[j], a.objs[j]);
      if j != id {
        assert w.live[id].Has(w.live[id].addr + offset);
        BlocksSeparated(w, id, j, w.live[id].addr + offset);
      }
    }
  }

  /** Operations that only forget blocks. */
  lemma ForgetRep(w: World, a: Store, op: Op)
    requires Inv(w) && Enabled(w, op) && Rep(w, a)
    requires op.Free? || op.Reset? || op.Release? || op.HeapFree? || op.Destruct? || op.PushMark?
    ensures ObjEnabled(a, op)
    ensures Rep(Step(w, op), ObjStep(a, op))
  {
    var v, c := Step(w, op), ObjStep(a, op);
    forall j | j in w.live ensures RepBlock(w.mem, w.live[j], a.objs[j]) {
    }
    assert c.objs.Keys == v.live.Keys;
    forall j | j in v.live ensures RepBlock(v.mem, v.live[j], c.objs[j]) {
      assert RepBlock(w.mem, w.live[j], a.objs[j]);
    }
  }

  lemma HeapAllocRep(w: World, a: Store, size: Word, at: nat)
    requires Inv(w) && Enabled(w, HeapAlloc(size, at)) && Rep(w, a)
    ensures Rep(Step(w, HeapAlloc(size, at)), ObjStep(a, HeapAlloc(size, at)))
  {
    var v, c := Step(w, HeapAlloc(size, at)), ObjStep(a, HeapAlloc(size, at));
    forall id | id in v.live ensures RepBlock(v.mem, v.live[id], c.objs[id]) {
      assert id != w.next ==> RepBlock(w.mem, w.live[id], a.objs[id]);
    }
  }

  lemma StepRep(w: World, a: Store, op: Op)
    requires Inv(w) && Enabled(w, op) && Rep(w, a)
    ensures ObjEnabled(a, op)
    ensures Rep(Step(w, op), ObjStep(a, op))
  {
    match op
    case Alloc(size, at) => AllocRep(w, a, size, at);
    case Realloc(id, size, at) => ReallocRep(w, a, id, size, at);
    case Write(id, offset, value) => WriteRep(w, a, id, offset, value);
    case HeapAlloc(size, at) => HeapAllocRep(w, a, size, at);
    case _ => ForgetRep(w, a, op);
  }

  predicate ObjRunEnabled(a: Store, ops: seq<Op>)
    decreases |ops|
  {
    ops == [] || (ObjEnabled(a, ops[0]) && ObjRunEnabled(ObjStep(a, ops[0]), ops[1..]))
  }

  function ObjRun(a: Store, ops: seq<Op>): Store
    requires ObjRunEnabled(a, ops)
    decreases |ops|
  {
    if ops == [] then a else ObjRun(ObjStep(a, ops[0]), ops[1..])
  }

  /** Over every run the arena behaves as a store of independent objects: each object keeps the bytes its
      owner wrote, whatever happens to the others, through moves, in-place growth, frees and marks. */
  lemma {:induction false} RunRefines(w: World, a: Store, ops: seq<Op>)
    requires Inv(w) && RunEnabled(w, ops) && Rep(w, a)
    ensures ObjRunEnabled(a, ops)
    ensures Rep(Run(w, ops), ObjRun(a, ops))
    decreases |ops|
  {
    if ops != [] {
      StepInv(w, ops[0]);
      StepRep(w, a, ops[0]);
      RunRefines(Step(w, ops[0]), ObjStep(a, ops[0]), ops[1..]);
    }
  }

  const EMPTY_STORE: Store := Store(map[], 0, 0)

  /** From the start: what the arena's clients see is what a store of independent objects would show them. */
  lemma ArenaIsObjectStore(m: Mem, ops: seq<Op>)
    requires RunEnabled(Start(m), ops)
    ensures ObjRunEnabled(EMPTY_STORE, ops)
    ensures Rep(Run(Start(m), ops), ObjRun(EMPTY_STORE, ops))
  {
    StartInv(m);
    RunRefines(Start(m), EMPTY_STORE, ops);
  }

  // ----- marks -----

  /** Every state of the run has more than d open marks. */
  ghost predicate StaysAbove(w: World, ops: seq<Op>, d: nat)
    requires RunEnabled(w, ops)
    decreases |ops|
  {
    |w.marks| > d && (ops != [] ==> StaysAbove(Step(w, ops[0]), ops[1..], d))
  }

  predicate Touches(op: Op, id: nat) {
    (op.Free? || op.Realloc? || op.Write? || op.HeapFree?) && op.id == id
  }

  predicate Untouched(ops: seq<Op>, id: nat) { forall i :: 0 <= i < |ops| ==> !Touches(ops[i], id) }

  /** Does a block stay when nobody names it? Destroying the arena's contents is not possible under a mark that
      saved a chunk, so of the blocks below a mark it takes away empty arena blocks only. */
  predicate Spared(op: Op, b: Block) { op.Destruct? ==> b.size > 0 || b.home.OnHeap? }

  predicate AllSpare(ops: seq<Op>, b: Block) { forall i :: 0 <= i < |ops| ==> Spared(ops[i], b) }

  /** A mark above a non-empty arena block saved a chunk. */
  lemma BelowNeedsChunk(w: World, id: nat)
    requires Inv(w) && id in w.live
    ensures w.live[id].depth < |w.marks| && w.live[id].size > 0 && w.live[id].home.InChunk? ==>
              w.marks[w.live[id].depth].chunks != []
  {
    var d := w.live[id].depth;
    if d < |w.marks| {
      assert Placed(w.marks[d], w.regions, w.live[id]);
    }
  }

  /** An operation that does not name a block leaves it, and its bytes, alone while its marks stay open. */
  lemma UntouchedStep(w: World, op: Op, id: nat)
    requires Inv(w) && Enabled(w, op) && id in w.live && !Touches(op, id) && Spared(op, w.live[id])
    requires w.live[id].depth < |w.marks| && w.live[id].depth < |Step(w, op).marks|
    ensures SameBlock(w, Step(w, op), id)
  {
    assert id < w.next;
    match op
    case Realloc(j, size, at) =>
      ReallocOthers(w, j, size, at, id);
    case Write(j, offset, value) =>
      assert w.live[j].Has(w.live[j].addr + offset);
      BlocksSeparated(w, j, id, w.live[j].addr + offset);
    case Destruct => BelowNeedsChunk(w, id);
    case _ =>
  }

  lemma {:induction false} UntouchedRun(w: World, ops: seq<Op>, id: nat)
    requires Inv(w) && RunEnabled(w, ops) && id in w.live && Untouched(ops, id) && AllSpare(ops, w.live[id])
    requires StaysAbove(w, ops, w.live[id].depth)
    ensures SameBlock(w, Run(w, ops), id)
    decreases |ops|
  {
    if ops != [] {
      var v := Step(w, ops[0]);
      StepInv(w, ops[0]);
      UntouchedStep(w, ops[0], id);
      UntouchedRun(v, ops[1..], id);
    }
  }

  lemma {:induction false} StaysAboveWeaker(w: World, ops: seq<Op>, d: nat, e: nat)
    requires RunEnabled(w, ops) && StaysAbove(w, ops, d) && e <= d
    ensures StaysAbove(w, ops, e)
    decreases |ops|
  {
    if ops != [] {
      StaysAboveWeaker(Step(w, ops[0]), ops[1..], d, e);
    }
  }

  /** Marks opened before the run are saved unchanged while the run keeps them open. */
  lemma {:induction false} OuterMarksKept(w: World, ops: seq<Op>, d: nat)
    requires RunEnabled(w, ops) && StaysAbove(w, ops, d)
    ensures |Run(w, ops).marks| > d && Run(w, ops).marks[..d + 1] == w.marks[..d + 1]
    decreases |ops|
  {
    if ops != [] {
      var v := Step(w, ops[0]);
      assert v.marks[..d + 1] == w.marks[..d + 1];
      OuterMarksKept(v, ops[1..], d);
    }
  }

  /** A bracket: open a mark, run operations that keep it open and close every mark of their own. */
  ghost predicate Bracket(w: World, ops: seq<Op>) {
    var u := Step(w, PushMark);
    RunEnabled(u, ops) && StaysAbove(u, ops, |w.marks|) && |Run(u, ops).marks| == |w.marks| + 1
  }

  ghost function Inside(w: World, ops: seq<Op>): World
    requires Bracket(w, ops)
  {
    Run(Step(w, PushMark), ops)
  }

  lemma InsideBracket(w: World, ops: seq<Op>)
    requires Inv(w) && Bracket(w, ops)
    ensures Inv(Inside(w, ops))
    ensures Inside(w, ops).marks == w.marks + [w.area]
  {
    var u := Step(w, PushMark);
    StepInv(w, PushMark);
    RunSafe(u, ops);
    OuterMarksKept(u, ops, |w.marks|);
    var v := Inside(w, ops);
    assert v.marks == v.marks[..|w.marks| + 1];
  }

  /** Releasing a mark restores `_chunk`, `_hwm`, `_max`, `_size_in_bytes` and the chunk list exactly, whatever
      ran in between, nested marks included; and it may be released exactly when the area had a chunk at the
      mark or still has none. */
  lemma BracketRestores(w: World, ops: seq<Op>)
    requires Inv(w) && Bracket(w, ops)
    ensures Enabled(Inside(w, ops), Release) <==> w.area.chunks != [] || Inside(w, ops).area.chunks == []
    ensures Enabled(Inside(w, ops), Release) ==>
              && Step(Inside(w, ops), Release).area == w.area
              && Step(Inside(w, ops), Release).marks == w.marks
              && Inv(Step(Inside(w, ops), Release))
  {
    InsideBracket(w, ops);
    var v := Inside(w, ops);
    assert v.marks[|v.marks| - 1] == w.area;
    if Enabled(v, Release) {
      ReleaseInv(v);
    }
  }

  /** A block live at the mark that nobody names in between is there afterwards, at the same address, with
      the same bytes; unless it is an empty block of an arena without chunks that was destroyed in between. */
  lemma BracketKeepsBlock(w: World, ops: seq<Op>, id: nat)
    requires Inv(w) && Bracket(w, ops) && Enabled(Inside(w, ops), Release)
    requires id in w.live && Untouched(ops, id) && AllSpare(ops, w.live[id])
    ensures SameBlock(w, Step(Inside(w, ops), Release), id)
  {
    var u := Step(w, PushMark);
    var v := Inside(w, ops);
    StepInv(w, PushMark);
    InsideBracket(w, ops);
    StaysAboveWeaker(u, ops, |w.marks|, u.live[id].depth);
    UntouchedRun(u, ops, id);
  }

  lemma BasesSnoc(cs: seq<ChunkRec>, k: ChunkRec)
    ensures Bases(cs + [k]) == Bases(cs) + {k.base}
  {
    assert (cs + [k])[..|cs|] == cs;
  }

  lemma {:induction false} BasesCount(cs: seq<ChunkRec>)
    requires Distinct(cs)
    ensures |Bases(cs)| == |cs|
    decreases |cs|
  {
    if cs != [] {
      var n := |cs| - 1;
      DistinctSlice(cs, 0, n);
      BasesCount(cs[..n]);
      forall i | 0 <= i < n ensures cs[..n][i].base != cs[n].base {
        assert Differ(cs[i], cs[n]);
      }
      assert cs == cs[..n] + [cs[n]];
      BasesSnoc(cs[..n], cs[n]);
      InBases(cs[..n], cs[n].base);
    }
  }

  /** The two parts of a sound chunk list: bases allocated, distinct and not shared. */
  lemma SplitBases(kept: seq<ChunkRec>, gone: seq<ChunkRec>, regions: Regions)
    requires ChunksOk(kept + gone, regions)
    ensures Bases(gone) <= regions.Keys && |Bases(gone)| == |gone| && Bases(gone) !! Bases(kept)
  {
    var all := kept + gone;
    forall j | 0 <= j < |gone| ensures gone[j] == all[|kept| + j] && gone[j].base in regions {
    }
    assert gone == all[|kept|..|all|];
    DistinctSlice(all, |kept|, |all|);
    BasesCount(gone);
    forall b | b in Bases(gone) ensures b in regions && b !in Bases(kept) {
      InBases(gone, b);
      InBases(kept, b);
      if b in Bases(kept) {
        var i :| 0 <= i < |kept| && kept[i].base == b;
        SuffixBases(kept, gone, i);
      }
    }
  }

  /** A reset frees the chunks appended since the mark: each once, all of them allocated, none of the older. */
  lemma ResetFrees(w: World) returns (gone: seq<ChunkRec>)
    requires Inv(w) && w.marks != [] && ResetSafe(w)
    ensures w.area.chunks == w.marks[|w.marks| - 1].chunks + gone
    ensures Bases(gone) <= w.regions.Keys && |Bases(gone)| == |gone|
    ensures Bases(gone) !! Bases(w.marks[|w.marks| - 1].chunks)
    ensures DoReset(w).regions == w.regions - Bases(gone)
  {
    gone := ResetSplit(w);
    SplitBases(w.marks[|w.marks| - 1].chunks, gone, w.regions);
  }

  /** A second reset, or the destructor after an explicit reset, finds nothing to undo. */
  lemma ResetTwice(w: World)
    requires Inv(w) && w.marks != [] && ResetSafe(w)
    ensures ResetSafe(DoReset(w))
    ensures DoReset(DoReset(w)) == DoReset(w)
    ensures DoRelease(DoReset(w)) == DoRelease(w)
  {
    ResetInv(w);
    var v := DoReset(w);
    ResetRestores(v.area, v.area, v.regions);
    NothingToReset(v);
  }

  lemma NothingToReset(v: World)
    requires v.marks != [] && v.area == v.marks[|v.marks| - 1]
    requires ResetToMark(v.area, MarkOf(v.area)) == v.area
      && v.area.chunks == v.area.chunks + Freed(v.area, MarkOf(v.area))
    requires Survivors(v.live, |v.marks| - 1) == v.live
    ensures DoReset(v) == v
  {
    assert Freed(v.area, MarkOf(v.area)) == [];
    assert v.regions - Bases([]) == v.regions;
  }

  /** Undoing a mark leaves a sound area exactly when the mark saved a chunk or the area still has none.
      Otherwise the list is non-empty while `_chunk` is null, and the next chunk has no list end to go to. */
  lemma ResetSoundExactly(w: World)
    requires Inv(w) && w.marks != []
    ensures AreaOk(DoReset(w).area, DoReset(w).regions) <==> ResetSafe(w)
    ensures !ResetSafe(w) ==> DoReset(w).area.chunks == w.area.chunks != [] && DoReset(w).area.current == 0
  {
    if ResetSafe(w) {
      ResetInv(w);
    }
  }

  /** The unsafe case happens: mark an empty area, allocate 8 bytes, reset. */
  lemma EmptyMarkBreaksArea(m: Mem)
    ensures var u := Start(m).(marks := [EMPTY]);
            && Step(Start(m), PushMark) == u
            && Enabled(u, Alloc(8, 4096))
            && var w := Step(u, Alloc(8, 4096));
               Inv(w) && w.marks != [] && !ResetSafe(w) && !AreaOk(DoReset(w).area, DoReset(w).regions)
  {
    var u := Start(m).(marks := [EMPTY]);
    AlignedIsMod(4096);
    StartInv(m);
    PushInv(Start(m));
    assert Step(Start(m), PushMark) == u;
    StepInv(u, Alloc(8, 4096));
    EightBytes(u);
    ResetSoundExactly(Step(u, Alloc(8, 4096)));
  }

  lemma EightBytes(u: World)
    requires u.area == EMPTY && Enabled(u, Alloc(8, 4096))
    ensures Step(u, Alloc(8, 4096)).area.chunks == [ChunkRec(4096, CHUNK_SIZE)]
    ensures Step(u, Alloc(8, 4096)).marks == u.marks
  {
    assert ArenaAlign(8) == 16;
  }
}
