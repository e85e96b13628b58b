/** GrowableArray as an object over the process memory. Each method's new state is the model's. */
module GrowableArrays {
  import opened Words
  import opened Memory
  import opened ArenaModel
  import opened ArrayMemory
  import opened ArrayModel
  import opened ArrayRuns
  import opened Arenas

  /** A 32-bit C++ int. */
  type Int32 = x: int | -0x8000_0000 <= x < 0x8000_0000

  /** With no elements to copy the source address does not matter. */
  lemma GrownMemSource(m: Mem, dst: nat, src: nat, other: nat, a: Arr, newMax: nat)
    requires a.len > 0 ==> src == other
    ensures GrownMem(m, dst, src, a, newMax) == GrownMem(m, dst, other, a, newMax)
  {
  }

  class GrowableArray {
    const arena: Arena   // where the buffer comes from, unless it comes from that arena's C heap
    const onHeap: bool
    const zero: Elem     // the representation of E()
    var len: Int32
    var max: Int32
    var data: nat

    ghost var hasBuf: bool
    ghost var buf: nat       // the buffer's name among the arena's clients' blocks
    ghost var initial: nat
    ghost var copied: nat

    ghost predicate Sane()
      reads this
    {
      0 <= len <= max && 1 <= |zero| < INT_LIMIT && (!hasBuf ==> max == 0)
    }

    ghost function View(): Arr
      reads this
      requires Sane()
    {
      Arr(hasBuf, buf, len, max, zero, onHeap, initial, copied)
    }

    /** `data` is the address of the buffer's block. */
    ghost predicate Ready()
      reads this, arena, arena.heap, arena.list
    {
      && Sane() && arena.Shape()
      && (View().NeedsBuf() ==> buf in arena.live && buf < arena.names && data == arena.live[buf].addr)
      && (onHeap ==> (hasBuf <==> data != 0) && (hasBuf ==> data in arena.heap.regions))
    }

    function At(i: Int32): Elem
      requires Sane() && 0 <= i < len
      reads this, arena.heap
    {
      Load(arena.heap.mem, Slot(data, i, |zero|), |zero|)
    }

    ghost function Contents(): seq<Elem>
      requires Sane()
      reads this, arena, arena.heap
    {
      Items(arena.World(), View())
    }

    lemma AtIsItem(i: Int32)
      requires Ready() && 0 <= i < len
      ensures At(i) == Contents()[i]
    {
    }

    /** GrowableArray(initial_size, c_heap) when len is 0, and GrowableArray(arena, initial_size, initial_len,
        filler); the byte count is a product of two ints. */
    constructor (arena: Arena, onHeap: bool, initialSize: Int32, len: Int32, filler: Elem, zero: Elem, at: nat)
      requires 0 <= len <= initialSize && arena.Shape()
      requires CreateAllowed(arena.World(), initialSize, len, filler, zero, onHeap, at)
      modifies arena, arena.heap
      modifies if arena.chunk == null then {} else {arena.chunk}
      ensures Ready() && this.arena == arena
      ensures arena.World() == Created(old(arena.World()), initialSize, len, filler, zero, onHeap, at)
      ensures View() == NewArr(old(arena.World()), initialSize, len, zero, onHeap)
    {
      this.arena := arena;
      this.onHeap := onHeap;
      this.zero := zero;
      this.len, this.max := len, initialSize;
      hasBuf, buf, initial, copied := true, arena.names, initialSize, 0;
      data := 0;
      new;
      InitBuffer(initialSize, len, filler, at);
    }

    /** `raw_allocate` and the two constructing loops. */
    method InitBuffer(initialSize: Int32, len: Int32, filler: Elem, at: nat)
      requires Sane() && 0 <= len <= initialSize && arena.Shape() && buf == arena.names
      requires CreateAllowed(arena.World(), initialSize, len, filler, zero, onHeap, at)
      modifies `data, arena, arena.heap
      modifies if arena.chunk == null then {} else {arena.chunk}
      ensures arena.Shape() && arena.World() == Created(old(arena.World()), initialSize, len, filler, zero, onHeap, at)
      ensures buf in arena.live && buf < arena.names && data == arena.live[buf].addr
      ensures onHeap ==> data in arena.heap.regions && data != 0
    {
      data := Allocate(Bytes(initialSize, |zero|), at);
      FillSlots(data, 0, len, filler);
      FillSlots(data, len, initialSize, zero);
    }

    /** A block for n elements: from the C heap or from the arena. */
    method Allocate(bytes: Word, at: nat) returns (p: Word)
      requires arena.Shape() && Enabled(arena.World(), BufOp(onHeap, bytes, at))
      modifies arena, arena.heap`regions
      modifies if arena.chunk == null then {} else {arena.chunk}
      ensures arena.Shape() && arena.World() == Step(old(arena.World()), BufOp(onHeap, bytes, at))
      ensures old(arena.names) in arena.live && p == arena.live[old(arena.names)].addr
      ensures onHeap ==> p in arena.heap.regions && p != 0 && arena.heap.regions == old(arena.heap.regions)[p := bytes]
    {
      if onHeap {
        p := arena.heap.AllocateHeap(bytes, at);
        arena.live := arena.live[arena.names := Block(p, bytes, 0, OnHeap)];
        arena.names := arena.names + 1;
      } else {
        p := arena.AmallocNamed(bytes, at, arena.names);
      }
    }

    method Grow(j: Int32, at: nat)
      requires Ready() && j >= 0 && GrowAllowed(arena.World(), View(), j, at)
      modifies this, arena, arena.heap
      modifies if arena.chunk == null then {} else {arena.chunk}
      ensures Ready() && View().NeedsBuf()
      ensures arena.World() == GrowWorld(old(arena.World()), old(View()), j, at)
      ensures View() == GrowArr(old(arena.World()), old(View()), j)
      ensures old(onHeap && hasBuf) ==> old(buf) !in arena.live && old(data) !in arena.heap.regions
    {
      var newMax: Int32 := max;
      if newMax == 0 {
        newMax := 2;
      }
      while newMax <= j
        invariant newMax >= 1 && Doubled(newMax, j) == NewMax(max, j)
        decreases j - newMax
      {
        newMax := newMax * 2;
      }
      NewMaxBounds(max, j);
      Relocate(newMax, j, at);
    }

    /** The rest of grow: a buffer of newMax elements, filled, in place of the old one. */
    method Relocate(newMax: Int32, ghost j: nat, at: nat)
      requires Ready() && GrowAllowed(arena.World(), View(), j, at) && newMax == NewMax(max, j) && newMax > 0
      modifies this, arena, arena.heap
      modifies if arena.chunk == null then {} else {arena.chunk}
      ensures Ready() && View().NeedsBuf()
      ensures arena.World() == GrowWorld(old(arena.World()), old(View()), j, at)
      ensures View() == GrowArr(old(arena.World()), old(View()), j)
    {
      ghost var name := arena.names;
      var newData := Exchange(newMax, j, at);
      Adopt(newData, newMax, name);
    }

    /** A new buffer with the old elements, and the old one returned if it is a C-heap one. */
    method Exchange(newMax: Int32, ghost j: nat, at: nat) returns (newData: nat)
      requires Ready() && GrowAllowed(arena.World(), View(), j, at) && newMax == NewMax(max, j) && newMax > 0
      modifies arena, arena.heap
      modifies if arena.chunk == null then {} else {arena.chunk}
      ensures arena.Shape() && arena.World() == GrowWorld(old(arena.World()), View(), j, at)
      ensures old(arena.names) in arena.live && old(arena.names) < arena.names
      ensures newData == arena.live[old(arena.names)].addr
      ensures onHeap ==> newData in arena.heap.regions && newData != 0
    {
      newData := NewBuffer(newMax, j, at);
      FreeOld();
    }

    /** Make the new buffer, with its larger capacity, the array's own. */
    method Adopt(newData: nat, newMax: Int32, ghost name: nat)
      requires arena.Shape() && Sane() && len <= newMax
      requires name in arena.live && name < arena.names && newData == arena.live[name].addr
      requires onHeap ==> newData in arena.heap.regions && newData != 0
      modifies `data, `max, `hasBuf, `buf, `copied
      ensures Ready() && View() == old(View()).(hasBuf := true, buf := name, max := newMax, copied := old(copied) + len)
    {
      data := newData;
      max := newMax;
      hasBuf, buf, copied := true, name, copied + len;
    }

    method NewBuffer(newMax: Int32, ghost j: nat, at: nat) returns (newData: nat)
      requires Ready() && GrowAllowed(arena.World(), View(), j, at) && newMax == NewMax(max, j) && newMax > 0
      modifies arena, arena.heap
      modifies if arena.chunk == null then {} else {arena.chunk}
      ensures arena.Shape() && arena.names == old(arena.names) + 1
      ensures arena.World() == Filled(old(arena.World()), View(), j, at)
      ensures old(arena.names) in arena.live && newData == arena.live[old(arena.names)].addr
      ensures View().NeedsBuf() ==> buf in arena.live && data == arena.live[buf].addr
      ensures onHeap ==>
                && newData in arena.heap.regions && newData != 0
                && old(arena.heap.regions.Keys) <= arena.heap.regions.Keys
      ensures onHeap ==> newData !in old(arena.heap.regions)
    {
      ghost var w, a := arena.World(), View();
      newData := Allocate(Bytes(newMax, |zero|), at);
      ghost var u := arena.World();
      assert u == Allocated(w, a, j, at);
      FillNew(newData, newMax);
      GrownMemSource(u.mem, newData, data, Data(w, a), a, newMax);
      assert arena.World() == Filled(w, a, j, at);
    }

    /** A C-heap array gives its old buffer back. */
    method FreeOld()
      requires arena.Shape() &&
          (onHeap ==> (hasBuf <==> data != 0) && (hasBuf ==> buf in arena.live && data == arena.live[buf].addr))
      requires onHeap && hasBuf ==> data in arena.heap.regions
      modifies arena`live, arena.heap`regions
      ensures arena.World() == if onHeap && hasBuf then DoHeapFree(old(arena.World()), buf) else old(arena.World())
    {
      if onHeap && data != 0 {
        arena.heap.FreeHeap(data);
        arena.live := arena.live - {buf};
      }
    }

    /** Copy the old elements into the new buffer and default-construct the rest. */
    method FillNew(newData: nat, newMax: Int32)
      requires Sane() && len <= newMax
      modifies arena.heap`mem
      ensures arena.heap.mem == GrownMem(old(arena.heap.mem), newData, data, View(), newMax)
    {
      var heap := arena.heap;
      var esz := |zero|;
      var i: Int32 := 0;
      while i < len
        invariant 0 <= i <= len
        invariant CopyElems(heap.mem, newData, data, esz, i, len) ==
            CopyElems(old(heap.mem), newData, data, esz, 0, len)
      {
        heap.StoreObject(Slot(newData, i, esz), Load(heap.mem, Slot(data, i, esz), esz));
        i := i + 1;
      }
      FillSlots(newData, len, newMax, zero);
    }

    /** Construct e in the slots from..upto-1. */
    method FillSlots(base: nat, from: Int32, upto: Int32, e: Elem)
      requires Sane() && 0 <= from && 0 <= upto
      modifies arena.heap`mem
      ensures arena.heap.mem == FillElems(old(arena.heap.mem), base, |zero|, from, upto, e)
    {
      var i := from;
      while i < upto
        invariant from <= i
        invariant FillElems(arena.heap.mem, base, |zero|, i, upto, e) ==
            FillElems(old(arena.heap.mem), base, |zero|, from, upto, e)
      {
        arena.heap.StoreObject(Slot(base, i, |zero|), e);
        i := i + 1;
      }
    }

    method Append(e: Elem, at: nat)
      requires Ready() && Allowed(arena.World(), View(), ArrayOp.Append(e, at))
      modifies this, arena, arena.heap
      modifies if arena.chunk == null then {} else {arena.chunk}
      ensures Ready()
      ensures arena.World() == DoWorld(old(arena.World()), old(View()), ArrayOp.Append(e, at))
      ensures View() == DoArr(old(arena.World()), old(View()), ArrayOp.Append(e, at))
    {
      ghost var w, a := arena.World(), View();
      if len == max {
        Grow(len, at);
      }
      assert arena.World() == RoomyWorld(w, a, len, at) && View() == RoomyArr(w, a, len);
      Place(e);
    }

    /** Put the element behind the last one and count it in. */
    method Place(e: Elem)
      requires Ready() && View().NeedsBuf() && len < max && |e| == |zero|
      modifies `len, arena.heap`mem
      ensures Ready() && View() == old(View()).(len := old(len) + 1)
      ensures arena.World() == StoreAt(old(arena.World()), old(View()), old(len), e)
    {
      arena.heap.StoreObject(Slot(data, len, |zero|), e);
      len := len + 1;
    }

    method Pop() returns (e: Elem)
      requires Ready() && len > 0
      modifies `len
      ensures Ready() && e == old(At(len - 1))
      ensures View() == DoArr(old(arena.World()), old(View()), ArrayOp.Pop)
    {
      len := len - 1;
      e := Load(arena.heap.mem, Slot(data, len, |zero|), |zero|);
    }

    method AtPut(i: Int32, e: Elem)
      requires Ready() && 0 <= i < len && |e| == |zero|
      modifies arena.heap`mem
      ensures Ready() && arena.World() == DoWorld(old(arena.World()), old(View()), ArrayOp.Put(i, e))
    {
      arena.heap.StoreObject(Slot(data, i, |zero|), e);
    }

    /** Overwrite, or grow, pad with fill and place. */
    method AtPutGrow(i: Int32, e: Elem, fill: Elem, at: nat)
      requires Ready() && i >= 0 && Allowed(arena.World(), View(), ArrayOp.PutGrow(i, e, fill, at))
      modifies this, arena, arena.heap
      modifies if arena.chunk == null then {} else {arena.chunk}
      ensures Ready()
      ensures arena.World() == DoWorld(old(arena.World()), old(View()), ArrayOp.PutGrow(i, e, fill, at))
      ensures View() == DoArr(old(arena.World()), old(View()), ArrayOp.PutGrow(i, e, fill, at))
    {
      if i >= len {
        Pad(i, fill, at);
      }
      arena.heap.StoreObject(Slot(data, i, |zero|), e);
    }

    /** The branch of at_put_grow past the end: make room for index i and fill up to it. */
    method Pad(i: Int32, fill: Elem, at: nat)
      requires Ready() && i >= len && |fill| == |zero| && (i >= max ==> GrowAllowed(arena.World(), View(), i, at))
      modifies this, arena, arena.heap
      modifies if arena.chunk == null then {} else {arena.chunk}
      ensures Ready() && View().NeedsBuf() && View() == RoomyArr(old(arena.World()), old(View()), i).(len := i + 1)
      ensures arena.World() ==
          var w, a := old(arena.World()), old(View());
          Padded(RoomyWorld(w, a, i, at), RoomyArr(w, a, i), i, fill)
    {
      ghost var w, a := arena.World(), View();
      while i >= max  // grow(i) ends with room for i, so this runs at most once
        invariant Ready() && (i < max ==> View().NeedsBuf())
        invariant i >= max ==> arena.World() == w && View() == a
        invariant i < max ==> arena.World() == RoomyWorld(w, a, i, at) && View() == RoomyArr(w, a, i)
        invariant arena.chunk == old(arena.chunk) || i < max
        decreases if i >= max then 1 else 0
      {
        NewMaxBounds(max, i);
        Grow(i, at);
      }
      assert arena.World() == RoomyWorld(w, a, i, at) && View() == RoomyArr(w, a, i);
      FillSlots(data, len, i, fill);
      len := i + 1;
    }

    method TruncTo(length: Int32)
      requires Ready() && 0 <= length <= len
      modifies `len
      ensures Ready() && View() == DoArr(old(arena.World()), old(View()), ArrayOp.Truncate(length))
    {
      len := length;
    }

    method Clear()
      requires Ready()
      modifies `len
      ensures Ready() && View() == DoArr(old(arena.World()), old(View()), ArrayOp.Truncate(0))
    {
      len := 0;
    }

    /** The least index holding e, or -1. */
    method Find(e: Elem) returns (r: int)
      requires Ready()
      ensures -1 <= r < len
      ensures r >= 0 ==> At(r) == e && forall j :: 0 <= j < r ==> At(j) != e
      ensures r == -1 ==> forall j :: 0 <= j < len ==> At(j) != e
    {
      r := FindFromIndex(0, e);
    }

    /** The least index from idx on holding e, or -1. */
    method FindFromIndex(idx: Int32, e: Elem) returns (r: int)
      requires Ready() && 0 <= idx
      ensures -1 <= r < len
      ensures r >= 0 ==> idx <= r && At(r) == e && forall j :: idx <= j < r ==> At(j) != e
      ensures r == -1 ==> forall j :: idx <= j < len ==> At(j) != e
    {
      var i: int := idx;
      while i < len
        invariant idx <= i
        invariant forall j :: idx <= j < i && j < len ==> At(j) != e
      {
        if At(i) == e {
          return i;
        }
        i := i + 1;
      }
      return -1;
    }

    method RemoveAtIndex(i: Int32)
      requires Ready() && 0 <= i < len
      modifies `len, arena.heap`mem
      ensures Ready() && arena.World() == DoWorld(old(arena.World()), old(View()), ArrayOp.RemoveAt(i))
      ensures View() == DoArr(old(arena.World()), old(View()), ArrayOp.RemoveAt(i))
    {
      var heap := arena.heap;
      var j := i;
      while j < len - 1
        invariant i <= j < len == old(len)
        invariant ShiftElems(heap.mem, data, |zero|, j, len) == ShiftElems(old(heap.mem), data, |zero|, i, len)
      {
        heap.StoreObject(Slot(data, j, |zero|), Load(heap.mem, Slot(data, j + 1, |zero|), |zero|));
        j := j + 1;
      }
      len := len - 1;
    }

    method RemoveFirst(e: Elem)
      requires Ready() && |e| == |zero|
      modifies `len, arena.heap`mem
      ensures Ready() && arena.World() == DoWorld(old(arena.World()), old(View()), ArrayOp.Remove(e))
      ensures View() == DoArr(old(arena.World()), old(View()), ArrayOp.Remove(e))
    {
      var idx := Find(e);
      ghost var s := Contents();
      forall j | 0 <= j < len ensures s[j] == At(j) {
        AtIsItem(j);
      }
      FindFromLeast(s, 0, e, idx);
      if idx >= 0 {
        RemoveAtIndex(idx);
      }
    }

    method ClearAndDeallocate()
      requires Ready()
      modifies this, arena`live, arena.heap`regions
      ensures Ready() && arena.World() == DoWorld(old(arena.World()), old(View()), ArrayOp.Dealloc)
      ensures View() == DoArr(old(arena.World()), old(View()), ArrayOp.Dealloc)
      ensures old(onHeap && hasBuf) ==> old(buf) !in arena.live && old(data) !in arena.heap.regions
    {
      ghost var w, a := arena.World(), View();
      if data != 0 {
        FreeOld();
      }
      assert arena.World() == DoWorld(w, a, ArrayOp.Dealloc);
      Forget();
    }

    /** Be an array without a buffer. */
    method Forget()
      requires Sane() && arena.Shape()
      modifies `data, `hasBuf, `initial, `copied, `len, `max
      ensures Ready() && View() == old(View()).(hasBuf := false, len := 0, max := 0, initial := 0, copied := 0)
    {
      data := 0;
      hasBuf, initial, copied := false, 0, 0;
      len := 0;
      max := 0;
    }
  }
}
