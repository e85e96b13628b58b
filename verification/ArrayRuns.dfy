/** Growable arrays against sequences: what each operation does to the items, and to nothing else. */
module ArrayRuns {
  import opened Words
  import opened Memory
  import opened ArenaModel
  import opened ArenaSafety
  import opened ArenaRuns
  import opened ArrayMemory
  import opened ArrayModel

  // ----- one array -----

  datatype ArrayOp =
    | Append(e: Elem, at: nat)
    | Pop
    | Put(i: nat, e: Elem)
    | PutGrow(i: nat, e: Elem, fill: Elem, at: nat)
    | Truncate(n: nat)
    | RemoveAt(i: nat)
    | Remove(e: Elem)
    | Dealloc

  /** The scan of `find_from`; FindFromLeast says what it finds. */
  function FindFrom(s: seq<Elem>, i: nat, e: Elem): int
    decreases |s| - i
  {
    if i >= |s| then -1 else if s[i] == e then i else FindFrom(s, i + 1, e)
  }

  /** r is the least index from i on that holds e, or -1 if there is none. */
  ghost predicate LeastIndex(s: seq<Elem>, i: nat, e: Elem, r: int) {
    if r == -1 then forall j :: i <= j < |s| ==> s[j] != e
    else i <= r < |s| && s[r] == e && forall j :: i <= j < r ==> s[j] != e
  }

  lemma {:induction false} FindFromLeast(s: seq<Elem>, i: nat, e: Elem, r: int)
    ensures LeastIndex(s, i, e, r) <==> r == FindFrom(s, i, e)
    decreases |s| - i
  {
    if i < |s| && s[i] != e {
      FindFromLeast(s, i + 1, e, r);
      if LeastIndex(s, i + 1, e, r) {
        forall j | i <= j < (if r == -1 then |s| else r) ensures s[j] != e {
        }
      }
    }
  }

  lemma FindFromRange(s: seq<Elem>, e: Elem)
    ensures -1 <= FindFrom(s, 0, e) < |s|
  {
    FindFromLeast(s, 0, e, FindFrom(s, 0, e));
  }

  ghost predicate Allowed(w: World, a: Arr, op: ArrayOp) {
    match op
    case Append(e, at) => |e| == a.Esz() && (a.len >= a.max ==> GrowAllowed(w, a, a.len, at))
    case Pop => a.len > 0
    case Put(i, e) => i < a.len && |e| == a.Esz()
    case PutGrow(i, e, fill, at) => |e| == |fill| == a.Esz() && (i >= a.max ==> GrowAllowed(w, a, i, at))
    case Truncate(n) => n <= a.len
    case RemoveAt(i) => i < a.len
    case Remove(e) => |e| == a.Esz()
    case Dealloc => true
  }

  function StoreAt(w: World, a: Arr, i: nat, e: Elem): World {
    w.(mem := StoreElem(w.mem, Slot(Data(w, a), i, a.Esz()), e))
  }

  // Grow to admit index j if there is no room for it.

  ghost function RoomyWorld(w: World, a: Arr, j: nat, at: nat): World
    requires j >= a.max ==> GrowAllowed(w, a, j, at)
  {
    if j >= a.max then GrowWorld(w, a, j, at) else w
  }

  function RoomyArr(w: World, a: Arr, j: nat): Arr {
    if j >= a.max then GrowArr(w, a, j) else a
  }

  function Padded(w: World, a: Arr, i: nat, fill: Elem): World {
    w.(mem := FillElems(w.mem, Data(w, a), a.Esz(), a.len, i, fill))
  }

  function Shifted(w: World, a: Arr, i: nat): World {
    w.(mem := ShiftElems(w.mem, Data(w, a), a.Esz(), i, a.len))
  }

  /** The world and the array after an operation. */
  ghost function DoWorld(w: World, a: Arr, op: ArrayOp): World
    requires Allowed(w, a, op)
  {
    match op
    case Append(e, at) =>
      var b := RoomyArr(w, a, a.len);
      StoreAt(RoomyWorld(w, a, a.len, at), b, b.len, e)
    case Pop => w
    case Put(i, e) => StoreAt(w, a, i, e)
    case PutGrow(i, e, fill, at) =>
      if i >= a.len then
        var b := RoomyArr(w, a, i);
        StoreAt(Padded(RoomyWorld(w, a, i, at), b, i, fill), b, i, e)
      else
        StoreAt(w, a, i, e)
    case Truncate(n) => w
    case RemoveAt(i) => Shifted(w, a, i)
    case Remove(e) =>
      var i := FindFrom(Items(w, a), 0, e);
      FindFromRange(Items(w, a), e);
      if i < 0 then w else Shifted(w, a, i)
    case Dealloc => if a.onHeap && a.hasBuf && a.buf in w.live then DoHeapFree(w, a.buf) else w
  }

  ghost function DoArr(w: World, a: Arr, op: ArrayOp): Arr
    requires Allowed(w, a, op)
  {
    match op
    case Append(e, at) =>
      var b := RoomyArr(w, a, a.len);
      b.(len := b.len + 1)
    case Pop => a.(len := a.len - 1)
    case Put(i, e) => a
    case PutGrow(i, e, fill, at) => if i >= a.len then RoomyArr(w, a, i).(len := i + 1) else a
    case Truncate(n) => a.(len := n)
    case RemoveAt(i) => a.(len := a.len - 1)
    case Remove(e) => FindFromRange(Items(w, a), e); if FindFrom(Items(w, a), 0, e) < 0 then a else a.(len := a.len - 1)
    case Dealloc => a.(hasBuf := false, len := 0, max := 0, initial := 0, copied := 0)
  }

  /** The same operations on a sequence. `stamp` is the number of marks that were open when the present
      capacity was obtained. */
  datatype Vec = Vec(items: seq<Elem>, max: nat, stamp: nat, zero: Elem, onHeap: bool) {
    function Roomy(j: nat, now: nat): Vec {
      if j >= max then this.(max := NewMax(max, j), stamp := now) else this
    }
  }

  predicate VecAllowed(v: Vec, op: ArrayOp) {
    match op
    case Pop => v.items != []
    case Put(i, e) => i < |v.items|
    case Truncate(n) => n <= |v.items|
    case RemoveAt(i) => i < |v.items|
    case _ => true
  }

  function VecDo(v: Vec, op: ArrayOp, now: nat): Vec
    requires VecAllowed(v, op)
  {
    var n := |v.items|;
    match op
    case Append(e, at) => v.Roomy(n, now).(items := v.items + [e])
    case Pop => v.(items := v.items[..n - 1])
    case Put(i, e) => v.(items := v.items[i := e])
    case PutGrow(i, e, fill, at) =>
      if i >= n then v.Roomy(i, now).(items := v.items + Repeat(fill, i - n) + [e])
      else v.(items := v.items[i := e])
    case Truncate(k) => v.(items := v.items[..k])
    case RemoveAt(i) => v.(items := v.items[..i] + v.items[i + 1..])
    case Remove(e) =>
      var i := FindFrom(v.items, 0, e);
      FindFromRange(v.items, e);
      if i < 0 then v else v.(items := v.items[..i] + v.items[i + 1..])
    case Dealloc => v.(items := [], max := 0)
  }

  ghost predicate RepVec(w: World, a: Arr, v: Vec) {
    && ArrOk(w, a) && Items(w, a) == v.items && a.max == v.max && a.zero == v.zero && a.onHeap == v.onHeap
    && (a.max > 0 && !a.onHeap ==> w.live[a.buf].depth == v.stamp)
  }

  /** What one array operation does to the rest of the world: nothing. */
  ghost predicate OthersKept(w: World, a: Arr, v: World, b: Arr) {
    && Inv(v) && v.marks == w.marks && v.next >= w.next
    && (b.NeedsBuf() ==> (a.NeedsBuf() && b.buf == a.buf) || b.buf == w.next)
    && forall i :: i in w.live && (a.NeedsBuf() ==> i != a.buf) ==> SameBlock(w, v, i)
  }

  /** The statement that every operation has to satisfy. */
  ghost predicate Effect(w: World, a: Arr, v: Vec, op: ArrayOp)
    requires Allowed(w, a, op)
  {
    && VecAllowed(v, op)
    && OthersKept(w, a, DoWorld(w, a, op), DoArr(w, a, op))
    && RepVec(DoWorld(w, a, op), DoArr(w, a, op), VecDo(v, op, |w.marks|))
  }

  lemma EditKeeps(w: World, a: Arr, m: Mem, b: Arr)
    requires Inv(w) && ArrOk(w, a) && a.max > 0 && b.hasBuf && b.buf == a.buf
    requires SameOutside(w.mem, m, Data(w, a), Data(w, a) + Bytes(a.max, a.Esz()))
    ensures OthersKept(w, a, w.(mem := m), b)
  {
    MemoryIsFree(w, m);
    forall i | i in w.live && i != a.buf ensures SameBlock(w, w.(mem := m), i) {
      OwnBlockOnly(w, m, a.buf, i);
    }
  }

  lemma NoEditKeeps(w: World, a: Arr, b: Arr)
    requires Inv(w) && b.hasBuf == a.hasBuf && b.buf == a.buf && b.max == a.max && b.onHeap == a.onHeap
    ensures OthersKept(w, a, w, b)
  {
  }

  lemma KeptTransitive(w: World, a: Arr, u: World, b: Arr, v: World, c: Arr)
    requires Inv(w) && OthersKept(w, a, u, b) && OthersKept(u, b, v, c)
    requires b.NeedsBuf() && c.NeedsBuf() && c.buf == b.buf
    ensures OthersKept(w, a, v, c)
  {
    forall i | i in w.live && (a.NeedsBuf() ==> i != a.buf) ensures SameBlock(w, v, i) {
      assert SameBlock(w, u, i);
      assert i < w.next;
      assert SameBlock(u, v, i);
    }
  }

  lemma ItemsTaken(w: World, a: Arr, n: nat)
    requires n <= a.len
    ensures Items(w, a.(len := n)) == Items(w, a)[..n]
  {
    ItemsPrefix(w.mem, Data(w, a), a.Esz(), a.len, n);
  }

  /** Store into a slot of a buffer with room for it. */
  lemma StoreEffect(w: World, a: Arr, i: nat, e: Elem, n: nat)
    requires Inv(w) && ArrOk(w, a) && i < n <= a.max && |e| == a.Esz()
    ensures OthersKept(w, a, StoreAt(w, a, i, e), a.(len := n)) && ArrOk(StoreAt(w, a, i, e), a.(len := n))
    ensures Items(StoreAt(w, a, i, e), a.(len := n)) == ItemsOf(w.mem, Data(w, a), a.Esz(), n)[i := e]
  {
    var d := Data(w, a);
    ItemsStore(w.mem, d, a.Esz(), n, i, e);
    SlotInside(d, n, a.max, a.Esz());
    EditKeeps(w, a, StoreElem(w.mem, Slot(d, i, a.Esz()), e), a.(len := n));
  }

  lemma RoomyEffect(w: World, a: Arr, v: Vec, j: nat, at: nat)
    requires Inv(w) && RepVec(w, a, v) && (j >= a.max ==> GrowAllowed(w, a, j, at))
    ensures var u, b := RoomyWorld(w, a, j, at), RoomyArr(w, a, j);
            && OthersKept(w, a, u, b) && RepVec(u, b, v.Roomy(j, |w.marks|))
            && j < b.max && b.NeedsBuf() && b.len == a.len
  {
    if j >= a.max {
      GrowEffect(w, a, j, at);
    } else {
      NoEditKeeps(w, a, a);
    }
  }

  /** Writing the slot after the last item and counting it in. */
  lemma AppendInto(w: World, a: Arr, v: Vec, e: Elem)
    requires Inv(w) && RepVec(w, a, v) && a.len < a.max && |e| == a.Esz()
    ensures var u, b := StoreAt(w, a, a.len, e), a.(len := a.len + 1);
            OthersKept(w, a, u, b) && RepVec(u, b, v.(items := v.items + [e]))
  {
    var n := a.len;
    StoreEffect(w, a, n, e, n + 1);
    ItemsPrefix(w.mem, Data(w, a), a.Esz(), n + 1, n);
    var more := ItemsOf(w.mem, Data(w, a), a.Esz(), n + 1);
    assert more[n := e] == more[..n] + [e];
  }

  /** The same, after room was made for it. */
  lemma AppendAfter(w: World, a: Arr, u: World, b: Arr, v: Vec, e: Elem)
    requires Inv(w) && OthersKept(w, a, u, b) && RepVec(u, b, v) && b.NeedsBuf() && b.len < b.max && |e| == b.Esz()
    ensures var x, y := StoreAt(u, b, b.len, e), b.(len := b.len + 1);
            OthersKept(w, a, x, y) && RepVec(x, y, v.(items := v.items + [e]))
  {
    AppendInto(u, b, v, e);
    KeptTransitive(w, a, u, b, StoreAt(u, b, b.len, e), b.(len := b.len + 1));
  }

  lemma AppendEffect(w: World, a: Arr, v: Vec, e: Elem, at: nat)
    requires Inv(w) && RepVec(w, a, v) && Allowed(w, a, Append(e, at))
    ensures Effect(w, a, v, Append(e, at))
  {
    var op := Append(e, at);
    var x, b, v' := RoomyWorld(w, a, a.len, at), RoomyArr(w, a, a.len), v.Roomy(a.len, |w.marks|);
    RoomyEffect(w, a, v, a.len, at);
    AppendAfter(w, a, x, b, v', e);
    assert VecDo(v, op, |w.marks|) == v'.(items := v'.items + [e]);
    assert DoArr(w, a, op) == b.(len := b.len + 1);
    assert DoWorld(w, a, op) == StoreAt(x, b, b.len, e);
  }

  lemma PutEffect(w: World, a: Arr, v: Vec, i: nat, e: Elem)
    requires Inv(w) && RepVec(w, a, v) && i < a.len && |e| == a.Esz()
    ensures OthersKept(w, a, StoreAt(w, a, i, e), a) && RepVec(StoreAt(w, a, i, e), a, v.(items := v.items[i := e]))
  {
    StoreEffect(w, a, i, e, a.len);
  }

  lemma PadInto(w: World, a: Arr, v: Vec, i: nat, fill: Elem)
    requires Inv(w) && RepVec(w, a, v) && a.len <= i < a.max && |fill| == a.Esz()
    ensures var u, b := Padded(w, a, i, fill), a.(len := i);
            OthersKept(w, a, u, b) && RepVec(u, b, v.(items := v.items + Repeat(fill, i - a.len)))
  {
    var d := Data(w, a);
    FillElemsItems(w.mem, d, a.Esz(), a.len, i, fill);
    SlotInside(d, i, a.max, a.Esz());
    EditKeeps(w, a, Padded(w, a, i, fill).mem, a.(len := i));
    ItemsPrefix(w.mem, d, a.Esz(), i, a.len);
  }

  /** Pad, then append. */
  lemma PadAppend(w: World, a: Arr, v: Vec, i: nat, e: Elem, fill: Elem)
    requires Inv(w) && RepVec(w, a, v) && a.len <= i < a.max && |fill| == |e| == a.Esz()
    ensures var u, b := StoreAt(Padded(w, a, i, fill), a, i, e), a.(len := i + 1);
            OthersKept(w, a, u, b) && RepVec(u, b, v.(items := v.items + Repeat(fill, i - a.len) + [e]))
  {
    PadInto(w, a, v, i, fill);
    var p, c := Padded(w, a, i, fill), a.(len := i);
    AppendInto(p, c, v.(items := v.items + Repeat(fill, i - a.len)), e);
    assert StoreAt(p, a, i, e) == StoreAt(p, c, c.len, e);
    KeptTransitive(w, a, p, c, StoreAt(p, a, i, e), a.(len := i + 1));
  }

  lemma PadAfter(w: World, a: Arr, u: World, b: Arr, v: Vec, i: nat, e: Elem, fill: Elem)
    requires Inv(w) && OthersKept(w, a, u, b) && RepVec(u, b, v) && b.NeedsBuf()
      && b.len <= i < b.max && |fill| == |e| == b.Esz()
    ensures var x, y := StoreAt(Padded(u, b, i, fill), b, i, e), b.(len := i + 1);
            OthersKept(w, a, x, y) && RepVec(x, y, v.(items := v.items + Repeat(fill, i - b.len) + [e]))
  {
    PadAppend(u, b, v, i, e, fill);
    KeptTransitive(w, a, u, b, StoreAt(Padded(u, b, i, fill), b, i, e), b.(len := i + 1));
  }

  lemma VecPadded(v: Vec, i: nat, e: Elem, fill: Elem, at: nat, now: nat)
    requires i >= |v.items|
    ensures var r := v.Roomy(i, now);
            VecDo(v, PutGrow(i, e, fill, at), now) == r.(items := r.items + Repeat(fill, i - |v.items|) + [e])
  {
  }

  lemma ArrPadded(w: World, a: Arr, i: nat, e: Elem, fill: Elem, at: nat)
    requires Allowed(w, a, PutGrow(i, e, fill, at)) && i >= a.len
    ensures var x, b := RoomyWorld(w, a, i, at), RoomyArr(w, a, i);
            && DoArr(w, a, PutGrow(i, e, fill, at)) == b.(len := i + 1)
            && DoWorld(w, a, PutGrow(i, e, fill, at)) == StoreAt(Padded(x, b, i, fill), b, i, e)
  {
  }

  /** Make room, pad, put. */
  lemma PadRoomy(w: World, a: Arr, v: Vec, i: nat, e: Elem, fill: Elem, at: nat)
    requires Inv(w) && RepVec(w, a, v) && i >= a.len && |e| == |fill| == a.Esz()
    requires i >= a.max ==> GrowAllowed(w, a, i, at)
    ensures var x, b, r := RoomyWorld(w, a, i, at), RoomyArr(w, a, i), v.Roomy(i, |w.marks|);
            var u, c := StoreAt(Padded(x, b, i, fill), b, i, e), b.(len := i + 1);
            && |v.items| == a.len && OthersKept(w, a, u, c)
            && RepVec(u, c, r.(items := r.items + Repeat(fill, i - |v.items|) + [e]))
  {
    RoomyEffect(w, a, v, i, at);
    PadAfter(w, a, RoomyWorld(w, a, i, at), RoomyArr(w, a, i), v.Roomy(i, |w.marks|), i, e, fill);
  }

  lemma PutGrowEffect(w: World, a: Arr, v: Vec, i: nat, e: Elem, fill: Elem, at: nat)
    requires Inv(w) && RepVec(w, a, v) && Allowed(w, a, PutGrow(i, e, fill, at)) && i >= a.len
    ensures Effect(w, a, v, PutGrow(i, e, fill, at))
  {
    PadRoomy(w, a, v, i, e, fill, at);
    VecPadded(v, i, e, fill, at, |w.marks|);
    ArrPadded(w, a, i, e, fill, at);
  }

  lemma RemoveEffect(w: World, a: Arr, v: Vec, i: nat)
    requires Inv(w) && RepVec(w, a, v) && i < a.len
    ensures var b := a.(len := a.len - 1);
            && OthersKept(w, a, Shifted(w, a, i), b)
            && RepVec(Shifted(w, a, i), b, v.(items := v.items[..i] + v.items[i + 1..]))
  {
    var d := Data(w, a);
    ShiftElemsItems(w.mem, d, a.Esz(), i, a.len);
    SlotInside(d, a.len, a.max, a.Esz());
    EditKeeps(w, a, Shifted(w, a, i).mem, a.(len := a.len - 1));
    ItemsPrefix(Shifted(w, a, i).mem, d, a.Esz(), a.len, a.len - 1);
  }

  lemma DeallocEffect(w: World, a: Arr, v: Vec)
    requires Inv(w) && RepVec(w, a, v)
    ensures Effect(w, a, v, Dealloc)
  {
    if a.onHeap && a.hasBuf {
      HeapFreeInv(w, a.buf);
    }
  }

  lemma TakeEffect(w: World, a: Arr, v: Vec, n: nat)
    requires Inv(w) && RepVec(w, a, v) && n <= a.len
    ensures OthersKept(w, a, w, a.(len := n)) && RepVec(w, a.(len := n), v.(items := v.items[..n]))
  {
    NoEditKeeps(w, a, a.(len := n));
    ItemsTaken(w, a, n);
  }

  lemma RemoveFirstEffect(w: World, a: Arr, v: Vec, e: Elem)
    requires Inv(w) && RepVec(w, a, v) && |e| == a.Esz()
    ensures Effect(w, a, v, Remove(e))
  {
    var i := FindFrom(v.items, 0, e);
    FindFromRange(v.items, e);
    if i >= 0 {
      RemoveEffect(w, a, v, i);
      assert DoWorld(w, a, Remove(e)) == Shifted(w, a, i);
      assert DoArr(w, a, Remove(e)) == a.(len := a.len - 1);
      assert VecDo(v, Remove(e), |w.marks|) == v.(items := v.items[..i] + v.items[i + 1..]);
    } else {
      NoEditKeeps(w, a, a);
      assert DoWorld(w, a, Remove(e)) == w && DoArr(w, a, Remove(e)) == a;
      assert VecDo(v, Remove(e), |w.marks|) == v;
    }
  }

  lemma PopEffect(w: World, a: Arr, v: Vec)
    requires Inv(w) && RepVec(w, a, v) && a.len > 0
    ensures Effect(w, a, v, Pop)
  {
    TakeEffect(w, a, v, a.len - 1);
  }

  lemma TruncateEffect(w: World, a: Arr, v: Vec, n: nat)
    requires Inv(w) && RepVec(w, a, v) && n <= a.len
    ensures Effect(w, a, v, Truncate(n))
  {
    TakeEffect(w, a, v, n);
  }

  lemma RemoveAtEffect(w: World, a: Arr, v: Vec, i: nat)
    requires Inv(w) && RepVec(w, a, v) && i < a.len
    ensures Effect(w, a, v, RemoveAt(i))
  {
    RemoveEffect(w, a, v, i);
  }

  lemma OverwriteEffect(w: World, a: Arr, v: Vec, i: nat, e: Elem, fill: Elem, at: nat)
    requires Inv(w) && RepVec(w, a, v) && Allowed(w, a, PutGrow(i, e, fill, at)) && i < a.len
    ensures Effect(w, a, v, PutGrow(i, e, fill, at))
  {
    PutEffect(w, a, v, i, e);
  }

  lemma JustPutEffect(w: World, a: Arr, v: Vec, i: nat, e: Elem)
    requires Inv(w) && RepVec(w, a, v) && Allowed(w, a, Put(i, e))
    ensures Effect(w, a, v, Put(i, e))
  {
    PutEffect(w, a, v, i, e);
  }

  /** Each operation does to the items what the same operation does to a sequence, and nothing else. */
  lemma ArrayEffect(w: World, a: Arr, v: Vec, op: ArrayOp)
    requires Inv(w) && RepVec(w, a, v) && Allowed(w, a, op)
    ensures Effect(w, a, v, op)
  {
    match op
    case Append(e, at) => AppendEffect(w, a, v, e, at);
    case Pop => PopEffect(w, a, v);
    case Put(i, e) => JustPutEffect(w, a, v, i, e);
    case PutGrow(i, e, fill, at) =>
      if i >= a.len {
        PutGrowEffect(w, a, v, i, e, fill, at);
      } else {
        OverwriteEffect(w, a, v, i, e, fill, at);
      }
    case Truncate(n) => TruncateEffect(w, a, v, n);
    case RemoveAt(i) => RemoveAtEffect(w, a, v, i);
    case Remove(e) => RemoveFirstEffect(w, a, v, e);
    case Dealloc => DeallocEffect(w, a, v);
  }

  /** An array's stamp is the mark depth at its last growth: growing stamps it with the present depth, and
      nothing else but deallocation changes its capacity. */
  lemma GrowthStamps(v: Vec, op: ArrayOp, now: nat)
    requires VecAllowed(v, op) && |v.items| <= v.max
    ensures var r := VecDo(v, op, now);
            && (op.Dealloc? ==> r.max == 0)
            && (!op.Dealloc? && r.max == v.max ==> r.stamp == v.stamp)
            && (!op.Dealloc? && r.max != v.max ==> r.stamp == now && r.max >= 2 * v.max && |r.items| > v.max)
            && |r.items| <= r.max
  {
    match op
    case Append(e, at) => NewMaxBounds(|v.items|, |v.items|);
    case PutGrow(i, e, fill, at) =>
      if i >= v.max {
        NewMaxBounds(v.max, i);
      }
    case Remove(e) => FindFromRange(v.items, e);
    case _ =>
  }

  // ----- the sequence operations, item by item -----

  /** r is s without its i-th item, the others in their order. */
  predicate DroppedAt(s: seq<Elem>, r: seq<Elem>, i: nat) {
    i < |s| && |r| == |s| - 1 && forall k :: 0 <= k < |r| ==> r[k] == if k < i then s[k] else s[k + 1]
  }

  ghost predicate FirstDropped(s: seq<Elem>, e: Elem, r: seq<Elem>) {
    || (LeastIndex(s, 0, e, -1) && r == s)
    || exists i: nat :: LeastIndex(s, 0, e, i) && DroppedAt(s, r, i)
  }

  /** s with e at place i; if that is beyond the end, with filling in between. */
  predicate PlacedAt(s: seq<Elem>, i: nat, e: Elem, fill: Elem, r: seq<Elem>) {
    && |r| == (if i < |s| then |s| else i + 1)
    && forall k :: 0 <= k < |r| ==> r[k] == if k == i then e else if k < |s| then s[k] else fill
  }

  predicate FrontOf(s: seq<Elem>, n: nat, r: seq<Elem>) {
    n <= |s| && |r| == n && forall k :: 0 <= k < n ==> r[k] == s[k]
  }

  /** What the operations leave of s, one position at a time. */
  ghost predicate Yields(s: seq<Elem>, op: ArrayOp, r: seq<Elem>) {
    match op
    case Append(e, at) => PlacedAt(s, |s|, e, e, r)
    case Pop => s != [] && FrontOf(s, |s| - 1, r)
    case Put(i, e) => |r| == |s| && PlacedAt(s, i, e, e, r)
    case PutGrow(i, e, fill, at) => PlacedAt(s, i, e, fill, r)
    case Truncate(n) => FrontOf(s, n, r)
    case RemoveAt(i) => DroppedAt(s, r, i)
    case Remove(e) => FirstDropped(s, e, r)
    case Dealloc => r == []
  }

  /** The operations on sequences are what their names say. */
  lemma ItemByItem(v: Vec, op: ArrayOp, now: nat)
    requires VecAllowed(v, op)
    ensures Yields(v.items, op, VecDo(v, op, now).items)
  {
    match op
    case Remove(e) => RemoveFirst(v, e, now);
    case _ =>
  }

  lemma RemoveFirst(v: Vec, e: Elem, now: nat)
    ensures FirstDropped(v.items, e, VecDo(v, Remove(e), now).items)
  {
    var i := FindFrom(v.items, 0, e);
    FindFromRange(v.items, e);
    FindFromLeast(v.items, 0, e, i);
    CutIsDrop(v.items, e, i);
    assert VecDo(v, Remove(e), now).items == Cut(v.items, i);
  }

  /** s without its i-th item, or s for -1. */
  function Cut(s: seq<Elem>, i: int): seq<Elem>
    requires -1 <= i < |s|
  {
    if i < 0 then s else s[..i] + s[i + 1..]
  }

  lemma CutIsDrop(s: seq<Elem>, e: Elem, i: int)
    requires -1 <= i < |s| && LeastIndex(s, 0, e, i)
    ensures FirstDropped(s, e, Cut(s, i))
  {
    if i >= 0 {
      DropIsCut(s, i);
    }
  }

  lemma DropIsCut(s: seq<Elem>, i: nat)
    requires i < |s|
    ensures DroppedAt(s, s[..i] + s[i + 1..], i)
  {
  }

  /** A new array: its length, its capacity and its items. */
  lemma NewItemByItem(w: World, initial: nat, len: nat, filler: Elem, zero: Elem, onHeap: bool, at: nat)
    requires Inv(w) && CreateAllowed(w, initial, len, filler, zero, onHeap, at)
    ensures var u, a := Created(w, initial, len, filler, zero, onHeap, at), NewArr(w, initial, len, zero, onHeap);
            && a.len == |Items(u, a)| == len && a.max == initial && a.hasBuf && a.onHeap == onHeap && a.zero == zero
            && a.initial == initial && a.copied == 0 && a.buf in u.live && u.live[a.buf].size == Bytes(initial, |zero|)
            && forall k :: 0 <= k < len ==> Items(u, a)[k] == filler
  {
    CreatedEffect(w, initial, len, filler, zero, onHeap, at);
    BlockForNew(w, Bytes(initial, |zero|), onHeap, at);
  }

  // ----- a new array -----

  ghost predicate CreateAllowed(w: World, initial: nat, len: nat, filler: Elem, zero: Elem, onHeap: bool, at: nat) {
    && 1 <= |zero| < INT_LIMIT && |filler| == |zero| && len <= initial < INT_LIMIT && Bytes(initial, |zero|) < INT_LIMIT
    && Enabled(w, BufOp(onHeap, Bytes(initial, |zero|), at))
  }

  function NewArr(w: World, initial: nat, len: nat, zero: Elem, onHeap: bool): Arr {
    Arr(true, w.next, len, initial, zero, onHeap, initial, 0)
  }

  ghost function Created(w: World, initial: nat, len: nat, filler: Elem, zero: Elem, onHeap: bool, at: nat): World
    requires CreateAllowed(w, initial, len, filler, zero, onHeap, at)
  {
    var u := Step(w, BufOp(onHeap, Bytes(initial, |zero|), at));
    u.(mem := FilledMem(u.mem, u.live[w.next].addr, initial, len, filler, zero))
  }

  /** The filler in the first slots, default-constructed elements in the rest. */
  function FilledMem(m: Mem, d: nat, initial: nat, len: nat, filler: Elem, zero: Elem): Mem {
    FillElems(FillElems(m, d, |zero|, 0, len, filler), d, |zero|, len, initial, zero)
  }

  function NewVec(w: World, initial: nat, len: nat, filler: Elem, zero: Elem, onHeap: bool): Vec {
    Vec(Repeat(filler, len), initial, if onHeap then 0 else |w.marks|, zero, onHeap)
  }

  lemma CreatedItems(m: Mem, d: nat, len: nat, initial: nat, filler: Elem, zero: Elem)
    requires len <= initial && |filler| == |zero|
    ensures var m' := FilledMem(m, d, initial, len, filler, zero);
            && SameOutside(m, m', d, d + Bytes(initial, |zero|))
            && ItemsOf(m', d, |zero|, len) == Repeat(filler, len)
  {
    var esz := |zero|;
    var m1 := FillElems(m, d, esz, 0, len, filler);
    FillElemsItems(m, d, esz, 0, len, filler);
    assert ItemsOf(m, d, esz, len)[..0] + Repeat(filler, len) == Repeat(filler, len);
    SlotInside(d, len, initial, esz);
    FilledBehind(m1, d, esz, len, initial, zero);
  }

  /** A new block, filled: the array is there, and every old block is still what it was. */
  lemma NewArrFilled(w: World, u: World, initial: nat, len: nat, filler: Elem, zero: Elem, onHeap: bool)
    requires Inv(u) && u.mem == w.mem && w.next in u.live && w.next !in w.live
    requires u.live == w.live[w.next := u.live[w.next]]
    requires 1 <= |zero| < INT_LIMIT && |filler| == |zero| && len <= initial < INT_LIMIT
    requires u.live[w.next].size == Bytes(initial, |zero|) && (u.live[w.next].home.OnHeap? <==> onHeap)
    requires u.live[w.next].depth == if onHeap then 0 else |w.marks|
    ensures var v := u.(mem := FilledMem(u.mem, u.live[w.next].addr, initial, len, filler, zero));
            && Inv(v) && (forall i :: i in w.live ==> SameBlock(w, v, i))
            && RepVec(v, NewArr(w, initial, len, zero, onHeap), NewVec(w, initial, len, filler, zero, onHeap))
  {
    var d := u.live[w.next].addr;
    var m := FilledMem(u.mem, d, initial, len, filler, zero);
    CreatedItems(u.mem, d, len, initial, filler, zero);
    NewBlockWritten(w, u, m);
    NewArrRep(w, u.(mem := m), initial, len, Repeat(filler, len), zero, onHeap);
  }

  lemma CreatedEffect(w: World, initial: nat, len: nat, filler: Elem, zero: Elem, onHeap: bool, at: nat)
    requires Inv(w) && CreateAllowed(w, initial, len, filler, zero, onHeap, at)
    ensures var u, a := Created(w, initial, len, filler, zero, onHeap, at), NewArr(w, initial, len, zero, onHeap);
            && Inv(u) && u.marks == w.marks && u.next == w.next + 1 && w.next !in w.live
            && RepVec(u, a, NewVec(w, initial, len, filler, zero, onHeap))
            && forall i :: i in w.live ==> SameBlock(w, u, i)
  {
    BlockForNew(w, Bytes(initial, |zero|), onHeap, at);
    NewArrFilled(w, Step(w, BufOp(onHeap, Bytes(initial, |zero|), at)), initial, len, filler, zero, onHeap);
  }

  lemma NewArrRep(w: World, v: World, initial: nat, len: nat, items: seq<Elem>, zero: Elem, onHeap: bool)
    requires 1 <= |zero| < INT_LIMIT && len <= initial < INT_LIMIT && w.next in v.live
    requires v.live[w.next].size == Bytes(initial, |zero|) && (v.live[w.next].home.OnHeap? <==> onHeap)
    requires v.live[w.next].depth == if onHeap then 0 else |w.marks|
    requires ItemsOf(v.mem, v.live[w.next].addr, |zero|, len) == items
    ensures RepVec(v, NewArr(w, initial, len, zero, onHeap),
        Vec(items, initial, if onHeap then 0 else |w.marks|, zero, onHeap))
  {
    var a := NewArr(w, initial, len, zero, onHeap);
    assert ArrOk(v, a);
  }

  // ----- the slots behind the items -----

  /** After a growth the slots behind the items, up to the new capacity, hold default-constructed elements. */
  lemma GrowConstructs(w: World, a: Arr, j: nat, at: nat)
    requires Inv(w) && ArrOk(w, a) && GrowAllowed(w, a, j, at)
    ensures var v, b := GrowWorld(w, a, j, at), GrowArr(w, a, j);
            b.max > a.len && ItemsOf(v.mem, Data(v, b), a.Esz(), b.max) == Items(w, a) + Repeat(a.zero, b.max - a.len)
  {
    NewMaxBounds(a.max, j);
    GrownPlace(w, a, j, at);
    var u := Allocated(w, a, j, at);
    GrownSlots(u.mem, u.live[w.next].addr, Data(w, a), a, NewMax(a.max, j));
  }

  /** Where the new buffer is, what was written, and that its first slots hold the items. */
  lemma GrownPlace(w: World, a: Arr, j: nat, at: nat)
    requires Inv(w) && ArrOk(w, a) && GrowAllowed(w, a, j, at)
    ensures w.next in Allocated(w, a, j, at).live
    ensures var u, v := Allocated(w, a, j, at), GrowWorld(w, a, j, at);
            var d := u.live[w.next].addr;
            && Data(v, GrowArr(w, a, j)) == d
            && v.mem == GrownMem(u.mem, d, Data(w, a), a, NewMax(a.max, j))
            && ItemsOf(v.mem, d, a.Esz(), a.len) == Items(w, a)
  {
    AllocatedEffect(w, a, j, at);
    GrownData(w, a, j, at);
    NewMaxBounds(a.max, j);
    GrownItems(w, Allocated(w, a, j, at), a, NewMax(a.max, j));
  }

  lemma GrownData(w: World, a: Arr, j: nat, at: nat)
    requires GrowAllowed(w, a, j, at) && w.next !in w.live && w.next in Allocated(w, a, j, at).live
    requires a.hasBuf && a.onHeap ==> a.buf in w.live
    ensures Data(GrowWorld(w, a, j, at), GrowArr(w, a, j)) == Allocated(w, a, j, at).live[w.next].addr
    ensures GrowWorld(w, a, j, at).mem == Filled(w, a, j, at).mem
  {
  }

  lemma GrownSlots(m: Mem, dst: nat, src: nat, a: Arr, newMax: nat)
    requires a.len <= newMax
    ensures var g := GrownMem(m, dst, src, a, newMax);
            ItemsOf(g, dst, a.Esz(), newMax) == ItemsOf(g, dst, a.Esz(), a.len) + Repeat(a.zero, newMax - a.len)
  {
    var c := CopyElems(m, dst, src, a.Esz(), 0, a.len);
    FillElemsItems(c, dst, a.Esz(), a.len, newMax, a.zero);
    ItemsPrefix(GrownMem(m, dst, src, a, newMax), dst, a.Esz(), newMax, a.len);
  }

  /** After a creation, too. */
  lemma CreateConstructs(w: World, initial: nat, len: nat, filler: Elem, zero: Elem, onHeap: bool, at: nat)
    requires Inv(w) && CreateAllowed(w, initial, len, filler, zero, onHeap, at)
    ensures var u, a := Created(w, initial, len, filler, zero, onHeap, at), NewArr(w, initial, len, zero, onHeap);
            ItemsOf(u.mem, Data(u, a), |zero|, initial) == Repeat(filler, len) + Repeat(zero, initial - len)
  {
    BlockForNew(w, Bytes(initial, |zero|), onHeap, at);
    var u := Step(w, BufOp(onHeap, Bytes(initial, |zero|), at));
    FilledSlots(u.mem, u.live[w.next].addr, initial, len, filler, zero);
  }

  lemma FilledSlots(m: Mem, d: nat, initial: nat, len: nat, filler: Elem, zero: Elem)
    requires len <= initial && |filler| == |zero|
    ensures ItemsOf(FilledMem(m, d, initial, len, filler, zero), d, |zero|, initial)
         == Repeat(filler, len) + Repeat(zero, initial - len)
  {
    var f := FillElems(m, d, |zero|, 0, len, filler);
    FillElemsItems(m, d, |zero|, 0, len, filler);
    FillElemsItems(f, d, |zero|, len, initial, zero);
    ItemsPrefix(f, d, |zero|, initial, len);
    assert ItemsOf(m, d, |zero|, len)[..0] + Repeat(filler, len) == Repeat(filler, len);
  }
}
