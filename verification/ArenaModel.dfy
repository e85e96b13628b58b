/** The arena as a value: chunk list, bump pointer and saved marks, with the transition that each
    operation performs, and the client's view of it: the live blocks. */
module ArenaModel {
  import opened Words
  import opened Memory
  import Alignment

  const CHUNK_SIZE: Word := 32 * 1024 - 40

  /** Two words: `_next` and `_len`. */
  const SIZEOF_CHUNK: Word := 16

  /** `Chunk::aligned_overhead_size()`; see OverheadIsAlignedHeader. */
  const OVERHEAD: nat := 16

  /** The largest request whose doubled, aligned size is still a word. */
  const MAX_REQUEST: nat := ADDRESS_LIMIT - 16

  /** ARENA_ALIGN: round up to a multiple of 16; the last 15 words wrap to 0.
      ArenaAlignIsMasked connects it to the macro's masked form. */
  function ArenaAlign(x: Word): (r: Word)
    ensures Aligned(r)
    ensures x <= WORD - 16 ==> x <= r < x + 16
    ensures x > WORD - 16 ==> r == 0
  {
    AlignedConstants();
    if x <= WORD - 16 then RoundUp(x) else 0
  }

  /** The macro as written: add 15 and clear the low four bits. */
  function ArenaAlignMacro(x: Word): Word { And(Add(x, 15), Not(15)) }

  lemma ArenaAlignIsMasked(x: Word)
    ensures ArenaAlignMacro(x) == ArenaAlign(x)
  {
    assert Pow2(4) == 16;
    Alignment.AlignDownIs(Add(x, 15), 4);
    var r, s := ArenaAlignMacro(x), ArenaAlign(x);
    assert r == Alignment.AlignDown(Add(x, 15), 16) == Add(x, 15) - Add(x, 15) % 16;
    AlignedIsMod(s);
  }

  lemma OverheadIsAlignedHeader()
    ensures ArenaAlign(SIZEOF_CHUNK) == OVERHEAD
  {
  }

  // ----- the arena object -----

  datatype ChunkRec = ChunkRec(base: nat, len: nat) {
    function Bottom(): nat { base + OVERHEAD }
    function Top(): nat { Bottom() + len }
    /** `Chunk::contains`, with its inclusive top. */
    predicate Contains(p: nat) { Bottom() <= p <= Top() }
  }

  /** `chunks` is the list reached from `_first`; `current` is the address in `_chunk`, 0 for null. */
  datatype Area = Area(chunks: seq<ChunkRec>, current: nat, hwm: Word, max: Word, sizeInBytes: Word)

  const EMPTY: Area := Area([], 0, 0, 0, 0)

  /** What a ResourceMark saves. */
  datatype Mark = Mark(chunk: nat, hwm: Word, max: Word, sizeInBytes: Word)

  function MarkOf(s: Area): Mark { Mark(s.current, s.hwm, s.max, s.sizeInBytes) }

  /** Data length of the chunk that `grow(x)` appends. */
  function GrowLen(x: Word): Word {
    var len := Add(x, x);
    if len < CHUNK_SIZE then CHUNK_SIZE else len
  }

  /** Does Amalloc(size) leave its fast path? */
  predicate NeedsChunk(s: Area, size: Word) { Add(s.hwm, ArenaAlign(size)) > s.max }

  /** Bytes that Amalloc(size) asks of the C heap on its slow path. */
  function ChunkBytes(size: Word): nat { OVERHEAD + GrowLen(ArenaAlign(size)) }

  function Grow(s: Area, x: Word, at: nat): Area
    requires at + OVERHEAD + GrowLen(x) < WORD
  {
    var k := ChunkRec(at, GrowLen(x));
    Area(s.chunks + [k], at, Add(k.Bottom(), x), k.Top(), Add(s.sizeInBytes, k.len + OVERHEAD))
  }

  predicate AtOk(s: Area, size: Word, at: nat) {
    NeedsChunk(s, size) ==> at + ChunkBytes(size) <= ADDRESS_LIMIT
  }

  function Amalloc(s: Area, size: Word, at: nat): Area
    requires AtOk(s, size, at)
  {
    var x := ArenaAlign(size);
    if Add(s.hwm, x) > s.max then Grow(s, x, at) else s.(hwm := Add(s.hwm, x))
  }

  function AmallocPtr(s: Area, size: Word, at: nat): Word
    requires AtOk(s, size, at)
  {
    if NeedsChunk(s, size) then at + OVERHEAD else s.hwm
  }

  function Afree(s: Area, p: Word, size: Word): Area {
    if p != 0 && Add(p, ArenaAlign(size)) == s.hwm then s.(hwm := p) else s
  }

  /** The three ways Arealloc can serve a request. */
  datatype ReallocPath = Fresh | Keep | Extend | Move

  function PathOf(s: Area, p: Word, oldSize: Word, newSize: Word): ReallocPath {
    var x, y := ArenaAlign(oldSize), ArenaAlign(newSize);
    if p == 0 then Fresh
    else if y <= x then Keep
    else if Add(p, x) == s.hwm && Add(s.hwm, y - x) <= s.max then Extend
    else Move
  }

  /** Does Arealloc reach Amalloc's slow path? */
  predicate ReallocNeedsChunk(s: Area, p: Word, oldSize: Word, newSize: Word) {
    match PathOf(s, p, oldSize, newSize)
    case Fresh => NeedsChunk(s, newSize)
    case Keep => false
    case Extend => false
    case Move => NeedsChunk(s, ArenaAlign(newSize))
  }

  predicate ReallocAtOk(s: Area, p: Word, oldSize: Word, newSize: Word, at: nat) {
    ReallocNeedsChunk(s, p, oldSize, newSize) ==> at + ChunkBytes(newSize) <= ADDRESS_LIMIT
  }

  function Arealloc(s: Area, p: Word, oldSize: Word, newSize: Word, at: nat): Area
    requires ReallocAtOk(s, p, oldSize, newSize, at)
  {
    var x, y := ArenaAlign(oldSize), ArenaAlign(newSize);
    match PathOf(s, p, oldSize, newSize)
    case Fresh => Amalloc(s, newSize, at)
    case Keep => s
    case Extend => s.(hwm := Add(s.hwm, y - x))
    case Move => AlignTwice(newSize); Afree(Amalloc(s, y, at), p, x)
  }

  function AreallocPtr(s: Area, p: Word, oldSize: Word, newSize: Word, at: nat): Word
    requires ReallocAtOk(s, p, oldSize, newSize, at)
  {
    match PathOf(s, p, oldSize, newSize)
    case Fresh => AmallocPtr(s, newSize, at)
    case Keep => p
    case Extend => p
    case Move => AlignTwice(newSize); AmallocPtr(s, ArenaAlign(newSize), at)
  }

  lemma AlignTwice(x: Word)
    ensures ArenaAlign(ArenaAlign(x)) == ArenaAlign(x)
    ensures x <= MAX_REQUEST ==> ArenaAlign(x) <= MAX_REQUEST
  {
    var r := ArenaAlign(x);
    AlignedIsMod(WORD);
    AlignedIsMod(ADDRESS_LIMIT);
    if r < ADDRESS_LIMIT {
      AlignedDifference(r, ADDRESS_LIMIT);
    }
    AlignedDifference(r, WORD);
    AlignedDifference(r, ArenaAlign(r));
  }

  /** The chunks up to and including the one at `base`, and the ones after it. */
  function Upto(cs: seq<ChunkRec>, base: nat): seq<ChunkRec> {
    if cs == [] then [] else if cs[0].base == base then [cs[0]] else [cs[0]] + Upto(cs[1..], base)
  }

  function After(cs: seq<ChunkRec>, base: nat): seq<ChunkRec> {
    if cs == [] then [] else if cs[0].base == base then cs[1..] else After(cs[1..], base)
  }

  /** The addresses of the chunks. */
  function Bases(cs: seq<ChunkRec>): set<nat> {
    if cs == [] then {} else Bases(cs[..|cs| - 1]) + {cs[|cs| - 1].base}
  }

  lemma {:induction false} InBases(cs: seq<ChunkRec>, b: nat)
    ensures b in Bases(cs) <==> exists i :: 0 <= i < |cs| && cs[i].base == b
  {
    if cs != [] {
      var n := |cs| - 1;
      InBases(cs[..n], b);
      if b in Bases(cs[..n]) {
        var i :| 0 <= i < n && cs[..n][i].base == b;
        assert cs[i].base == b;
      }
      if i :| 0 <= i < |cs| && cs[i].base == b {
        assert i < n ==> cs[..n][i].base == b;
      }
    }
  }

  function Freed(s: Area, m: Mark): seq<ChunkRec> {
    if m.chunk != 0 then After(s.chunks, m.chunk) else []
  }

  function ResetToMark(s: Area, m: Mark): Area {
    Area(if m.chunk != 0 then Upto(s.chunks, m.chunk) else s.chunks, m.chunk, m.hwm, m.max, m.sizeInBytes)
  }

  /** `Arena::used()`: whole chunks, except the current one, which counts up to the high-water mark. */
  function Used(s: Area): int { UsedIn(s.chunks, s.current, s.hwm) }

  function UsedIn(cs: seq<ChunkRec>, current: nat, hwm: nat): int {
    if cs == [] then 0
    else (if cs[0].base == current then hwm - cs[0].Bottom() else cs[0].len) + UsedIn(cs[1..], current, hwm)
  }

  predicate Contains(s: Area, p: nat) { exists i :: 0 <= i < |s.chunks| && s.chunks[i].Contains(p) }

  // ----- shape of a sound arena -----

  function Sum(cs: seq<ChunkRec>): nat {
    if cs == [] then 0 else Sum(cs[..|cs| - 1]) + cs[|cs| - 1].len + OVERHEAD
  }

  predicate Differ(a: ChunkRec, b: ChunkRec) { a.base != b.base }

  ghost predicate Distinct(cs: seq<ChunkRec>) {
    forall i, j {:trigger Differ(cs[i], cs[j])} :: 0 <= i < j < |cs| ==> Differ(cs[i], cs[j])
  }

  ghost predicate ChunksOk(cs: seq<ChunkRec>, regions: Regions) {
    && (forall i :: 0 <= i < |cs| ==> cs[i].base in regions && regions[cs[i].base] == OVERHEAD + cs[i].len)
    && Distinct(cs)
  }

  ghost predicate AreaOk(s: Area, regions: Regions) {
    && ChunksOk(s.chunks, regions)
    && (s.chunks == [] ==> s == EMPTY)
    && (s.chunks != [] ==>
          var k := s.chunks[|s.chunks| - 1];
          && s.current == k.base && s.max == k.Top()
          && k.Bottom() <= s.hwm <= k.Top() && Aligned(s.hwm)
          && s.sizeInBytes == Sum(s.chunks))
  }

  // ----- the client's view -----

  datatype Home = InChunk(index: nat) | OnHeap

  /** A block as its owner sees it: address, requested size, how many marks were open when it was
      allocated or last extended, and which chunk holds it (ghost knowledge, no operation reads it). */
  datatype Block = Block(addr: Word, size: Word, depth: nat, home: Home) {
    /** Bytes set aside for the block. */
    function Foot(): Word { if home.OnHeap? then size else ArenaAlign(size) }
    function End(): nat { addr + Foot() }
    predicate Has(p: nat) { addr <= p < addr + size }
  }

  datatype World = World(
    regions: Regions, mem: Mem,
    area: Area,
    live: map<nat, Block>,   // block names to blocks
    marks: seq<Area>,        // the area as it was at each open mark, outermost first
    next: nat)               // the next unused block name

  /** End of the part of chunk c that blocks may occupy. */
  function Limit(s: Area, c: nat): nat
    requires c < |s.chunks|
  {
    if c == |s.chunks| - 1 then s.hwm else s.chunks[c].Top()
  }

  ghost predicate Placed(s: Area, regions: Regions, b: Block) {
    && Aligned(b.addr) && b.addr <= ADDRESS_LIMIT && b.size <= MAX_REQUEST
    && match b.home
       case OnHeap =>
         && b.addr in regions && regions[b.addr] == b.size && b.depth == 0
         && forall i :: 0 <= i < |s.chunks| ==> s.chunks[i].base != b.addr
       case InChunk(c) =>
         b.size > 0 ==> c < |s.chunks| && s.chunks[c].Bottom() <= b.addr && b.End() <= Limit(s, c)
  }

  /** Two blocks share no byte of their footprints, and no C-heap region. */
  predicate Apart(a: Block, b: Block) {
    && (a.size > 0 && b.size > 0 ==> a.End() <= b.addr || b.End() <= a.addr)
    && (a.home.OnHeap? && b.home.OnHeap? ==> a.addr != b.addr)
  }

  ghost predicate BlocksOk(w: World) {
    && (forall id :: id in w.live ==> id < w.next && w.live[id].depth <= |w.marks|)
    && (forall id {:trigger Placed(w.area, w.regions, w.live[id])} ::
          id in w.live ==> Placed(w.area, w.regions, w.live[id]))
    && (forall i, j {:trigger Apart(w.live[i], w.live[j])} ::
          i in w.live && j in w.live && i != j ==> Apart(w.live[i], w.live[j]))
  }

  /** Each saved area is sound, is a prefix of the present one, and still covers every block at least as old. */
  ghost predicate MarksOk(w: World) {
    && (forall i {:trigger w.marks[i]} :: 0 <= i < |w.marks| ==>
          AreaOk(w.marks[i], w.regions) && w.marks[i].chunks <= w.area.chunks)
    && (forall i, j :: 0 <= i < j < |w.marks| ==> |w.marks[i].chunks| <= |w.marks[j].chunks|)
    && (forall id, i {:trigger Placed(w.marks[i], w.regions, w.live[id])} ::
          id in w.live && w.live[id].depth <= i < |w.marks| ==> Placed(w.marks[i], w.regions, w.live[id]))
  }

  ghost predicate Inv(w: World) {
    && RegionsOk(w.regions)
    && AreaOk(w.area, w.regions)
    && BlocksOk(w)
    && MarksOk(w)
  }

  // ----- steps -----

  datatype Op =
    | Alloc(size: Word, at: nat)
    | Free(id: nat)
    | Realloc(id: nat, size: Word, at: nat)
    | Write(id: nat, offset: nat, value: Byte)
    | PushMark
    | Reset                        // reset_to_mark on the innermost mark, which stays open
    | Release                      // the innermost mark's destructor
    | HeapAlloc(size: Word, at: nat)
    | HeapFree(id: nat)
    | Destruct                     // destruct_contents

  function LastIndex(s: Area): nat { if s.chunks == [] then 0 else |s.chunks| - 1 }

  function RegionsAfter(regions: Regions, s: Area, size: Word, at: nat): Regions {
    if NeedsChunk(s, size) then regions[at := ChunkBytes(size)] else regions
  }

  /** The world after Amalloc, with the new block bound to the given name. */
  function AllocAs(w: World, id: nat, size: Word, at: nat): World
    requires AtOk(w.area, size, at)
  {
    var s := Amalloc(w.area, size, at);
    var b := Block(AmallocPtr(w.area, size, at), size, |w.marks|, InChunk(LastIndex(s)));
    w.(regions := RegionsAfter(w.regions, w.area, size, at), area := s, live := w.live[id := b],
       next := if id < w.next then w.next else id + 1)
  }

  function DoFree(w: World, id: nat): World
    requires id in w.live
  {
    var b := w.live[id];
    w.(area := Afree(w.area, b.addr, b.size), live := w.live - {id})
  }

  function DoRealloc(w: World, id: nat, size: Word, at: nat): World
    requires id in w.live
    requires ReallocAtOk(w.area, w.live[id].addr, w.live[id].size, size, at)
  {
    var b := w.live[id];
    var s := Arealloc(w.area, b.addr, b.size, size, at);
    var p := AreallocPtr(w.area, b.addr, b.size, size, at);
    var path := PathOf(w.area, b.addr, b.size, size);
    w.(regions := if ReallocNeedsChunk(w.area, b.addr, b.size, size)
                   then w.regions[at := ChunkBytes(size)] else w.regions,
       mem := if path == Move then CopyBytes(w.mem, p, b.addr, ArenaAlign(b.size)) else w.mem,
       area := s,
       live := w.live[id := if path == Keep then b.(size := size)
                            else Block(p, size, DepthAfter(b.depth, b.size, size, |w.marks|), InChunk(LastIndex(s)))])
  }

  /** A resized block is as old as before unless its footprint grew. */
  function DepthAfter(depth: nat, oldSize: Word, newSize: Word, now: nat): nat {
    if ArenaAlign(newSize) <= ArenaAlign(oldSize) then depth else now
  }

  /** Undoing a mark ends its owners' claim to the blocks born or extended under it. What becomes of their memory
      is not decided here: see ArenaMarks.TakenBackExactly. */
  function Survivors(live: map<nat, Block>, depth: nat): map<nat, Block> {
    map id | id in live && live[id].depth <= depth :: live[id]
  }

  function DoReset(w: World): World
    requires w.marks != []
  {
    var d := |w.marks| - 1;
    var m := MarkOf(w.marks[d]);
    w.(regions := w.regions - Bases(Freed(w.area, m)), area := ResetToMark(w.area, m), live := Survivors(w.live, d))
  }

  function DoRelease(w: World): World
    requires w.marks != []
  {
    var v := DoReset(w);
    v.(marks := w.marks[..|w.marks| - 1])
  }

  function DoHeapAlloc(w: World, size: Word, at: nat): World
    requires at < WORD
  {
    w.(regions := w.regions[at := size], live := w.live[w.next := Block(at, size, 0, OnHeap)], next := w.next + 1)
  }

  function DoHeapFree(w: World, id: nat): World
    requires id in w.live
  {
    w.(regions := w.regions - {w.live[id].addr}, live := w.live - {id})
  }

  function DoDestruct(w: World): World {
    w.(regions := w.regions - Bases(w.area.chunks), area := EMPTY,
       live := map id | id in w.live && w.live[id].home.OnHeap? :: w.live[id])
  }

  /** A mark may be undone when it saved a chunk, or when the area still has none. */
  predicate ResetSafe(w: World)
    requires w.marks != []
  {
    w.marks[|w.marks| - 1].current != 0 || w.area.chunks == []
  }

  /** The calls that clients may make: blocks they own with the sizes they asked for, marks in LIFO order,
      requests of at most MAX_REQUEST bytes; and the C library keeps its promise. */
  ghost predicate Enabled(w: World, op: Op) {
    match op
    case Alloc(size, at) =>
      size <= MAX_REQUEST && (NeedsChunk(w.area, size) ==> MallocOk(w.regions, at, ChunkBytes(size)))
    case Free(id) => id in w.live && w.live[id].home.InChunk?
    case Realloc(id, size, at) =>
      && id in w.live && w.live[id].home.InChunk? && size <= MAX_REQUEST
      && (ReallocNeedsChunk(w.area, w.live[id].addr, w.live[id].size, size) ==>
          MallocOk(w.regions, at, ChunkBytes(size)))
    case Write(id, offset, value) => id in w.live && offset < w.live[id].size
    case PushMark => true
    case Reset => w.marks != [] && ResetSafe(w)
    case Release => w.marks != [] && ResetSafe(w)
    case HeapAlloc(size, at) => size <= MAX_REQUEST && MallocOk(w.regions, at, size)
    case HeapFree(id) => id in w.live && w.live[id].home.OnHeap?
    case Destruct => forall i :: 0 <= i < |w.marks| ==> w.marks[i].chunks == []
  }

  ghost function Step(w: World, op: Op): World
    requires Enabled(w, op)
  {
    match op
    case Alloc(size, at) => AllocAs(w, w.next, size, at)
    case Free(id) => DoFree(w, id)
    case Realloc(id, size, at) => DoRealloc(w, id, size, at)
    case Write(id, offset, value) => w.(mem := Store(w.mem, w.live[id].addr + offset, value))
    case PushMark => w.(marks := w.marks + [w.area])
    case Reset => DoReset(w)
    case Release => DoRelease(w)
    case HeapAlloc(size, at) => DoHeapAlloc(w, size, at)
    case HeapFree(id) => DoHeapFree(w, id)
    case Destruct => DoDestruct(w)
  }
}
