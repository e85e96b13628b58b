/** GrowableArray as a value: a length, a capacity and a buffer block somewhere in the world; and what each
    operation does to that block's memory. */
module ArrayModel {
  import opened Words
  import opened Memory
  import opened ArenaModel
  import opened ArenaSafety
  import opened ArenaRuns
  import opened ArrayMemory

  const INT_LIMIT: nat := 0x8000_0000

  /** `zero` is the representation of E(); `initial` and `copied` record, for the cost bound, the capacity
      the array started with and the number of elements grow() has copied since. */
  datatype Arr = Arr(hasBuf: bool, buf: nat, len: nat, max: nat, zero: Elem, onHeap: bool, initial: nat, copied: nat) {
    function Esz(): nat { |zero| }
    /** Does the array depend on its block still being there? */
    predicate NeedsBuf() { hasBuf && (max > 0 || onHeap) }
  }

  // ----- capacity -----

  /** The least of m, 2m, 4m, ... that admits index j. */
  function Doubled(m: nat, j: nat): (r: nat)
    requires m >= 1
    ensures r > j && r >= m
    ensures m <= j ==> r <= 2 * j && r >= 2 * m
    ensures m > j ==> r == m
    decreases j + 1 - m
  {
    if m <= j then Doubled(2 * m, j) else m
  }

  function NewMax(max: nat, j: nat): nat { Doubled(if max == 0 then 2 else max, j) }

  /** A needed grow(j) ends above j and at most at the larger of 2 and 2j, at least doubling the capacity;
      below 2^30 the result is a 32-bit int, whatever the capacity was. */
  lemma NewMaxBounds(max: nat, j: nat)
    requires max <= j
    ensures j < NewMax(max, j) <= (if j == 0 then 2 else 2 * j)
    ensures NewMax(max, j) >= 2 * max
    ensures j < INT_LIMIT / 2 ==> NewMax(max, j) < INT_LIMIT
  {
  }

  lemma {:induction false} DoubledPower(i: nat, j: nat) returns (k: nat)
    ensures k >= i && Doubled(Pow2(i), j) == Pow2(k)
    decreases j + 1 - Pow2(i)
  {
    if Pow2(i) <= j {
      assert Pow2(i + 1) == 2 * Pow2(i);
      k := DoubledPower(i + 1, j);
    } else {
      k := i;
    }
  }

  /** m doubled k times. */
  function Times(m: nat, k: nat): nat
    decreases k
  {
    if k == 0 then m else Times(2 * m, k - 1)
  }

  lemma {:induction false} TimesGrows(m: nat, k: nat)
    ensures Times(m, k) >= m
    decreases k
  {
    if k > 0 {
      TimesGrows(2 * m, k - 1);
    }
  }

  lemma {:induction false} DoubledIsTimes(m: nat, j: nat) returns (k: nat)
    requires m >= 1
    ensures Times(m, k) == Doubled(m, j)
    decreases j + 1 - m
  {
    k := 0;
    if m <= j {
      k := DoubledIsTimes(2 * m, j);
      k := k + 1;
    }
  }

  lemma {:induction false} DoubledIsLeast(m: nat, j: nat, k: nat)
    requires m >= 1 && j < Times(m, k)
    ensures Doubled(m, j) <= Times(m, k)
    decreases k
  {
    if m > j {
      TimesGrows(m, k);
    } else {
      DoubledIsLeast(2 * m, j, k - 1);
    }
  }

  lemma {:induction false} TimesIsProduct(m: nat, k: nat)
    ensures Times(m, k) == m * Pow2(k)
    decreases k
  {
    if k > 0 {
      TimesIsProduct(2 * m, k - 1);
      assert 2 * m * Pow2(k - 1) == m * (2 * Pow2(k - 1));
    }
  }

  /** Doubling m ends in a 32-bit int, and so does not overflow on the way, exactly when some m * 2^k is above j
      and below 2^31. */
  lemma DoubledFitsExactly(m: nat, j: nat)
    requires m >= 1
    ensures Doubled(m, j) < INT_LIMIT <==> exists k: nat :: j < m * Pow2(k) < INT_LIMIT
  {
    if Doubled(m, j) < INT_LIMIT {
      var k := DoubledIsTimes(m, j);
      TimesIsProduct(m, k);
      assert j < m * Pow2(k) < INT_LIMIT;
    }
    if k: nat :| j < m * Pow2(k) < INT_LIMIT {
      TimesIsProduct(m, k);
      DoubledIsLeast(m, j, k);
    }
  }

  /** The same for grow(j), which doubles the old capacity, or 2 if there is none. */
  lemma NewMaxIsInt(max: nat, j: nat)
    ensures NewMax(max, j) < INT_LIMIT <==>
              exists k: nat :: j < (if max == 0 then 2 else max) * Pow2(k) < INT_LIMIT
  {
    DoubledFitsExactly(if max == 0 then 2 else max, j);
  }

  /** The new capacity: the least of 2, 4, 8, ... that admits index j for an array without capacity, and the least
      of max, 2 max, 4 max, ... for one with capacity. */
  lemma NewMaxIsLeast(max: nat, j: nat)
    ensures var m := if max == 0 then 2 else max;
            && NewMax(max, j) > j
            && (exists k: nat :: NewMax(max, j) == m * Pow2(k))
            && (forall k: nat :: m * Pow2(k) > j ==> NewMax(max, j) <= m * Pow2(k))
  {
    var m := if max == 0 then 2 else max;
    var k := DoubledIsTimes(m, j);
    TimesIsProduct(m, k);
    assert NewMax(max, j) == m * Pow2(k);
    forall i: nat | m * Pow2(i) > j ensures NewMax(max, j) <= m * Pow2(i) {
      TimesIsProduct(m, i);
      DoubledIsLeast(m, j, i);
    }
  }

  /** Index 2^30: a full array of 2^30 elements cannot grow, its int would be doubled to 2^31; one of 3 * 2^28
      can. */
  lemma GrowOverflows()
    ensures NewMax(0x4000_0000, 0x4000_0000) == 0x8000_0000 == INT_LIMIT
    ensures NewMax(0x3000_0000, 0x4000_0000) == 0x6000_0000 < INT_LIMIT
  {
    assert Doubled(0x4000_0000, 0x4000_0000) == Doubled(0x8000_0000, 0x4000_0000);
    assert Doubled(0x3000_0000, 0x4000_0000) == Doubled(0x6000_0000, 0x4000_0000);
  }

  /** For an array that starts empty the bound is exact: the new capacity is a 32-bit int if and only if
      j is below 2^30. */
  lemma NewMaxFitsExactly(j: nat)
    ensures NewMax(0, j) < INT_LIMIT <==> j < INT_LIMIT / 2
  {
    assert Pow2(1) == 2;
    var k := DoubledPower(1, j);
    assert Pow2(8) == 0x100;
    assert Pow2(16) == 0x1_0000;
    assert Pow2(24) == 0x100_0000;
    assert Pow2(30) == INT_LIMIT / 2 && Pow2(31) == INT_LIMIT;
    if j >= INT_LIMIT / 2 {
      if k <= 30 {
        Pow2Monotone(k, 30);
      } else {
        Pow2Monotone(31, k);
      }
    }
  }

  // ----- the buffer -----

  function BufOp(onHeap: bool, bytes: Word, at: nat): Op {
    if onHeap then HeapAlloc(bytes, at) else Alloc(bytes, at)
  }

  ghost predicate ArrOk(w: World, a: Arr) {
    && 1 <= a.Esz() < INT_LIMIT && a.len <= a.max < INT_LIMIT
    && (!a.hasBuf ==> a.max == 0)
    && a.initial + a.copied <= a.max
    && (a.NeedsBuf() ==>
          && a.buf in w.live
          && w.live[a.buf].size == Bytes(a.max, a.Esz())
          && (w.live[a.buf].home.OnHeap? <==> a.onHeap))
  }

  function Data(w: World, a: Arr): nat {
    if a.hasBuf && a.buf in w.live then w.live[a.buf].addr else 0
  }

  function Items(w: World, a: Arr): (r: seq<Elem>)
    ensures |r| == a.len
  {
    ItemsOf(w.mem, Data(w, a), a.Esz(), a.len)
  }

  /** Sizes of arrays with int capacities never come near the largest request. */
  lemma BytesFit(n: nat, esz: nat)
    requires n < INT_LIMIT && esz < INT_LIMIT
    ensures Bytes(n, esz) <= MAX_REQUEST
  {
    BytesIsProduct(n, esz);
    ProductBound(n, esz, INT_LIMIT);
  }

  lemma ProductBound(n: nat, m: nat, limit: nat)
    requires n <= limit && m <= limit
    ensures n * m <= limit * limit
  {
    assert n * m <= limit * m;
  }

  /** A block untouched, or an array without buffer, means an array untouched. */
  lemma KeepArr(w: World, v: World, a: Arr)
    requires ArrOk(w, a) && (a.NeedsBuf() ==> a.buf in w.live && SameBlock(w, v, a.buf))
    ensures ArrOk(v, a) && Items(v, a) == Items(w, a)
  {
    if a.max > 0 {
      forall i | 0 <= i < a.len ensures Items(v, a)[i] == Items(w, a)[i] {
        KeepItem(w, v, a, i);
      }
    }
  }

  lemma KeepItem(w: World, v: World, a: Arr, i: nat)
    requires ArrOk(w, a) && a.max > 0 && a.buf in w.live && SameBlock(w, v, a.buf) && i < a.len
    ensures Items(v, a)[i] == Items(w, a)[i]
  {
    var s := Slot(Data(w, a), i, a.Esz());
    SlotInside(Data(w, a), i, a.max, a.Esz());
    forall k | 0 <= k < a.Esz() ensures Load(v.mem, s, a.Esz())[k] == Load(w.mem, s, a.Esz())[k] {
      assert w.live[a.buf].Has(s + k);
    }
  }

  /** Memory changed only inside one block: the world is still sound and every other block is the same. */
  lemma OwnBlockOnly(w: World, m: Mem, id: nat, j: nat)
    requires Inv(w) && id in w.live && j in w.live && j != id
    requires SameOutside(w.mem, m, w.live[id].addr, w.live[id].addr + w.live[id].size)
    ensures SameBlock(w, w.(mem := m), j)
  {
    forall p | w.live[j].Has(p) ensures m(p) == w.mem(p) {
      if w.live[id].Has(p) {
        BlocksSeparated(w, id, j, p);
      }
    }
  }

  /** Writing inside a new block disturbs no old one. */
  lemma NewBlockWritten(w: World, u: World, m: Mem)
    requires Inv(u) && w.next in u.live && u.mem == w.mem
    requires forall i :: i in w.live ==> i != w.next && i in u.live && u.live[i] == w.live[i]
    requires SameOutside(u.mem, m, u.live[w.next].addr, u.live[w.next].addr + u.live[w.next].size)
    ensures Inv(u.(mem := m))
    ensures forall i :: i in w.live ==> SameBlock(w, u.(mem := m), i)
  {
    MemoryIsFree(u, m);
    forall i | i in w.live ensures SameBlock(w, u.(mem := m), i) {
      OwnBlockOnly(u, m, w.next, i);
    }
  }

  // ----- grow -----

  /** grow(j) is needed, its new capacity is an int (see DoubledFitsExactly), and the allocation can be made. */
  ghost predicate GrowAllowed(w: World, a: Arr, j: nat, at: nat)
    ensures GrowAllowed(w, a, j, at) ==> Bytes(NewMax(a.max, j), a.Esz()) <= MAX_REQUEST
  {
    && a.max <= j && NewMax(a.max, j) < INT_LIMIT && a.Esz() < INT_LIMIT
    && (BytesFit(NewMax(a.max, j), a.Esz()); Enabled(w, BufOp(a.onHeap, Bytes(NewMax(a.max, j), a.Esz()), at)))
  }

  /** The world with the new buffer allocated, under the next name, and not yet written. */
  ghost function Allocated(w: World, a: Arr, j: nat, at: nat): World
    requires GrowAllowed(w, a, j, at)
  {
    Step(w, BufOp(a.onHeap, Bytes(NewMax(a.max, j), a.Esz()), at))
  }

  /** Old elements copied, the rest default-constructed. */
  function GrownMem(m: Mem, dst: nat, src: nat, a: Arr, newMax: nat): Mem {
    FillElems(CopyElems(m, dst, src, a.Esz(), 0, a.len), dst, a.Esz(), a.len, newMax, a.zero)
  }

  ghost function Filled(w: World, a: Arr, j: nat, at: nat): World
    requires GrowAllowed(w, a, j, at)
  {
    var u := Allocated(w, a, j, at);
    u.(mem := GrownMem(u.mem, u.live[w.next].addr, Data(w, a), a, NewMax(a.max, j)))
  }

  ghost function GrowWorld(w: World, a: Arr, j: nat, at: nat): World
    requires GrowAllowed(w, a, j, at)
  {
    var u := Filled(w, a, j, at);
    if a.onHeap && a.hasBuf && a.buf in u.live then DoHeapFree(u, a.buf) else u
  }

  function GrowArr(w: World, a: Arr, j: nat): Arr {
    a.(hasBuf := true, buf := w.next, max := NewMax(a.max, j), copied := a.copied + a.len)
  }

  /** A new block for a buffer, not yet written. */
  lemma BlockForNew(w: World, bytes: Word, onHeap: bool, at: nat)
    requires Inv(w) && Enabled(w, BufOp(onHeap, bytes, at))
    ensures var u := Step(w, BufOp(onHeap, bytes, at));
            && Inv(u) && u.marks == w.marks && u.next == w.next + 1 && u.mem == w.mem && w.next !in w.live
            && w.next in u.live && u.live == w.live[w.next := u.live[w.next]]
            && u.live[w.next].size == bytes && (u.live[w.next].home.OnHeap? <==> onHeap)
            && u.live[w.next].depth == if onHeap then 0 else |w.marks|
  {
    StepInv(w, BufOp(onHeap, bytes, at));
  }

  /** A new block of n elements, as far as its neighbours are concerned. */
  lemma AllocatedEffect(w: World, a: Arr, j: nat, at: nat)
    requires Inv(w) && ArrOk(w, a) && GrowAllowed(w, a, j, at)
    ensures var u, b := Allocated(w, a, j, at), Allocated(w, a, j, at).live[w.next];
            && Inv(u) && u.marks == w.marks && u.next == w.next + 1 && u.mem == w.mem
            && u.live == w.live[w.next := b] && w.next !in w.live
            && b.size == Bytes(NewMax(a.max, j), a.Esz()) && (b.home.OnHeap? <==> a.onHeap)
            && b.depth == if a.onHeap then 0 else |w.marks|
  {
    BlockForNew(w, Bytes(NewMax(a.max, j), a.Esz()), a.onHeap, at);
  }

  lemma CopiedItems(m: Mem, dst: nat, src: nat, esz: nat, n: nat)
    requires n == 0 || dst + Bytes(n, esz) <= src || src + Bytes(n, esz) <= dst
    ensures var m' := CopyElems(m, dst, src, esz, 0, n);
            SameOutside(m, m', dst, dst + Bytes(n, esz)) && ItemsOf(m', dst, esz, n) == ItemsOf(m, src, esz, n)
  {
    if n > 0 {
      CopyElemsItems(m, dst, src, esz, 0, n);
      assert ItemsOf(m, dst, esz, n)[..0] + ItemsOf(m, src, esz, n)[0..] == ItemsOf(m, src, esz, n);
    }
  }

  /** Filling the slots after the first n leaves the first n. */
  lemma FilledBehind(m: Mem, a: nat, esz: nat, n: nat, upto: nat, e: Elem)
    requires n <= upto && |e| == esz
    ensures var m' := FillElems(m, a, esz, n, upto, e);
            SameOutside(m, m', a, a + Bytes(upto, esz)) && ItemsOf(m', a, esz, n) == ItemsOf(m, a, esz, n)
  {
    FillElemsItems(m, a, esz, n, upto, e);
    var m' := FillElems(m, a, esz, n, upto, e);
    ItemsPrefix(m', a, esz, upto, n);
    ItemsPrefix(m, a, esz, upto, n);
    var before := ItemsOf(m, a, esz, upto);
    assert (before[..n] + Repeat(e, upto - n))[..n] == before[..n];
  }

  lemma FilledItems(m: Mem, dst: nat, src: nat, a: Arr, newMax: nat)
    requires a.len <= a.max < newMax
    requires a.len == 0 || dst + Bytes(newMax, a.Esz()) <= src || src + Bytes(a.max, a.Esz()) <= dst
    ensures SameOutside(m, GrownMem(m, dst, src, a, newMax), dst, dst + Bytes(newMax, a.Esz()))
    ensures ItemsOf(GrownMem(m, dst, src, a, newMax), dst, a.Esz(), a.len) == ItemsOf(m, src, a.Esz(), a.len)
  {
    var esz, n := a.Esz(), a.len;
    SlotInside(dst, n, newMax, esz);
    SlotInside(src, n, a.max, esz);
    CopiedItems(m, dst, src, esz, n);
    FilledBehind(CopyElems(m, dst, src, esz, 0, n), dst, esz, n, newMax, a.zero);
  }

  /** An array moved to a new block that has been given its items. */
  lemma MovedEffect(w: World, u: World, m: Mem, a: Arr, newMax: nat)
    requires Inv(u) && ArrOk(w, a) && u.mem == w.mem && w.next !in w.live && w.next in u.live
    requires u.live == w.live[w.next := u.live[w.next]]
    requires u.live[w.next].size == Bytes(newMax, a.Esz()) && (u.live[w.next].home.OnHeap? <==> a.onHeap)
    requires a.max < newMax < INT_LIMIT && newMax >= 2 * a.max
    requires SameOutside(u.mem, m, u.live[w.next].addr, u.live[w.next].addr + Bytes(newMax, a.Esz()))
    requires ItemsOf(m, u.live[w.next].addr, a.Esz(), a.len) == Items(w, a)
    ensures var f, b := u.(mem := m), a.(hasBuf := true, buf := w.next, max := newMax, copied := a.copied + a.len);
            && Inv(f) && ArrOk(f, b) && Items(f, b) == Items(w, a)
            && forall i :: i in w.live ==> SameBlock(w, f, i)
  {
    NewBlockWritten(w, u, m);
  }

  /** The new buffer, filled: the items are there, and every old block is still what it was. */
  lemma FilledEffect(w: World, a: Arr, j: nat, at: nat)
    requires Inv(w) && ArrOk(w, a) && GrowAllowed(w, a, j, at)
    ensures var f, b := Filled(w, a, j, at), GrowArr(w, a, j);
            && Inv(f) && f.marks == w.marks && f.next == w.next + 1 && w.next !in w.live
            && ArrOk(f, b) && Items(f, b) == Items(w, a) && j < b.max
            && f.live[b.buf].depth == (if a.onHeap then 0 else |w.marks|)
            && forall i :: i in w.live ==> SameBlock(w, f, i)
  {
    NewMaxBounds(a.max, j);
    AllocatedEffect(w, a, j, at);
    GrownItems(w, Allocated(w, a, j, at), a, NewMax(a.max, j));
    var u := Allocated(w, a, j, at);
    var m := GrownMem(u.mem, u.live[w.next].addr, Data(w, a), a, NewMax(a.max, j));
    MovedEffect(w, u, m, a, NewMax(a.max, j));
    assert Filled(w, a, j, at) == u.(mem := m);
  }

  lemma GrownItems(w: World, u: World, a: Arr, newMax: nat)
    requires Inv(u) && ArrOk(w, a) && u.mem == w.mem && w.next !in w.live && w.next in u.live
    requires u.live == w.live[w.next := u.live[w.next]]
    requires u.live[w.next].size == Bytes(newMax, a.Esz()) && a.max < newMax
    ensures var d := u.live[w.next].addr;
            var m := GrownMem(u.mem, d, Data(w, a), a, newMax);
            && SameOutside(u.mem, m, d, d + Bytes(newMax, a.Esz()))
            && ItemsOf(m, d, a.Esz(), a.len) == Items(w, a)
  {
    if a.max > 0 {
      BuffersApart(u, a, w.next, newMax);
    }
    FilledItems(u.mem, u.live[w.next].addr, Data(w, a), a, newMax);
  }

  /** Growing keeps the items, moves them to a fresh block as young as the innermost mark, leaves every
      other block alone, and pays for the copy out of the doubled capacity. */
  lemma GrowEffect(w: World, a: Arr, j: nat, at: nat)
    requires Inv(w) && ArrOk(w, a) && GrowAllowed(w, a, j, at)
    ensures var v, b := GrowWorld(w, a, j, at), GrowArr(w, a, j);
            && Inv(v) && v.marks == w.marks && v.next == w.next + 1 && w.next !in w.live
            && ArrOk(v, b) && Items(v, b) == Items(w, a) && j < b.max
            && v.live[b.buf].depth == (if a.onHeap then 0 else |w.marks|)
            && forall i :: i in w.live && (a.NeedsBuf() ==> i != a.buf) ==> SameBlock(w, v, i)
  {
    FilledEffect(w, a, j, at);
    if a.onHeap && a.hasBuf {
      HeapFreeInv(Filled(w, a, j, at), a.buf);
    }
  }

  lemma BuffersApart(u: World, a: Arr, new_: nat, newMax: nat)
    requires Inv(u) && ArrOk(u, a) && a.max > 0 && new_ in u.live && new_ != a.buf
    requires u.live[new_].size == Bytes(newMax, a.Esz()) && newMax > a.max
    ensures var dst, src := u.live[new_].addr, u.live[a.buf].addr;
            dst + Bytes(newMax, a.Esz()) <= src || src + Bytes(a.max, a.Esz()) <= dst
  {
    AtLeastOne(a.max, a.Esz());
    AtLeastOne(newMax, a.Esz());
    assert Apart(u.live[new_], u.live[a.buf]);
    assert Placed(u.area, u.regions, u.live[new_]);
    assert Placed(u.area, u.regions, u.live[a.buf]);
  }
}
