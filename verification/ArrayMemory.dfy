/** Fixed-size elements laid out in memory: loads, stores, and the element loops of GrowableArray. */
module ArrayMemory {
  import opened Memory

  /** The object representation of one element. */
  type Elem = seq<Byte>

  function Load(m: Mem, a: nat, n: nat): (r: Elem)
    ensures |r| == n && forall k :: 0 <= k < n ==> r[k] == m(a + k)
  {
    seq(n, k requires 0 <= k => m(a + k))
  }

  /** The size of n elements: n times esz, as BytesIsProduct says. */
  function Bytes(n: nat, esz: nat): nat {
    if n == 0 then 0 else Bytes(n - 1, esz) + esz
  }

  lemma {:induction false} BytesIsProduct(n: nat, esz: nat)
    ensures Bytes(n, esz) == n * esz
  {
    if n > 0 {
      BytesIsProduct(n - 1, esz);
    }
  }

  function Slot(a: nat, i: nat, esz: nat): nat { a + Bytes(i, esz) }

  /** The n elements at address a. */
  function ItemsOf(m: Mem, a: nat, esz: nat, n: nat): (r: seq<Elem>)
    ensures |r| == n && forall i :: 0 <= i < n ==> r[i] == Load(m, Slot(a, i, esz), esz)
  {
    seq(n, i requires 0 <= i => Load(m, Slot(a, i, esz), esz))
  }

  /** Memory is the same outside [lo, hi). */
  ghost predicate SameOutside(m: Mem, m': Mem, lo: nat, hi: nat) {
    forall p: nat {:trigger m'(p)} :: p < lo || hi <= p ==> m'(p) == m(p)
  }

  lemma {:induction false} BytesSum(i: nat, d: nat, esz: nat)
    ensures Bytes(i + d, esz) == Bytes(i, esz) + Bytes(d, esz)
  {
    if d > 0 {
      BytesSum(i, d - 1, esz);
    }
  }

  lemma AtLeastOne(d: nat, esz: nat)
    requires d >= 1
    ensures Bytes(d, esz) >= esz
  {
  }

  lemma SlotOrder(a: nat, i: nat, j: nat, esz: nat)
    requires i < j
    ensures Slot(a, i, esz) + esz <= Slot(a, j, esz)
    ensures Slot(a, i + 1, esz) == Slot(a, i, esz) + esz
  {
    BytesSum(i, j - i, esz);
    AtLeastOne(j - i, esz);
  }

  lemma SlotInside(a: nat, i: nat, n: nat, esz: nat)
    requires i <= n
    ensures a <= Slot(a, i, esz) <= Slot(a, n, esz) == a + Bytes(n, esz)
    ensures i < n ==> Slot(a, i, esz) + esz <= a + Bytes(n, esz)
  {
    if i < n {
      SlotOrder(a, i, n, esz);
    }
  }

  /** Elements outside the changed range keep their values. */
  lemma ItemsFrame(m: Mem, m': Mem, a: nat, esz: nat, n: nat, lo: nat, hi: nat)
    requires SameOutside(m, m', lo, hi) && (a + Bytes(n, esz) <= lo || hi <= a)
    ensures ItemsOf(m', a, esz, n) == ItemsOf(m, a, esz, n)
  {
    forall i | 0 <= i < n ensures Load(m', Slot(a, i, esz), esz) == Load(m, Slot(a, i, esz), esz) {
      SlotInside(a, i, n, esz);
    }
  }

  /** Writing one slot updates one element. */
  lemma ItemsStore(m: Mem, a: nat, esz: nat, n: nat, i: nat, e: Elem)
    requires i < n && |e| == esz
    ensures var m' := StoreElem(m, Slot(a, i, esz), e);
            && ItemsOf(m', a, esz, n) == ItemsOf(m, a, esz, n)[i := e]
            && SameOutside(m, m', a, a + Bytes(n, esz))
  {
    var s := Slot(a, i, esz);
    var m' := StoreElem(m, s, e);
    SlotInside(a, i, n, esz);
    forall j | 0 <= j < n
      ensures Load(m', Slot(a, j, esz), esz) == if j == i then e else Load(m, Slot(a, j, esz), esz)
    {
      if j < i {
        SlotOrder(a, j, i, esz);
      } else if i < j {
        SlotOrder(a, i, j, esz);
      }
    }
  }

  lemma ItemsPrefix(m: Mem, a: nat, esz: nat, n: nat, k: nat)
    requires k <= n
    ensures ItemsOf(m, a, esz, n)[..k] == ItemsOf(m, a, esz, k)
  {
  }

  // ----- the loops -----

  /** Elements i to n-1 copied from src to dst, one at a time. */
  function CopyElems(m: Mem, dst: nat, src: nat, esz: nat, i: nat, n: nat): Mem
    decreases n - i
  {
    if i >= n then m
    else CopyElems(StoreElem(m, Slot(dst, i, esz), Load(m, Slot(src, i, esz), esz)), dst, src, esz, i + 1, n)
  }

  /** Slots i to n-1 set to e, one at a time. */
  function FillElems(m: Mem, a: nat, esz: nat, i: nat, n: nat, e: Elem): Mem
    decreases n - i
  {
    if i >= n then m else FillElems(StoreElem(m, Slot(a, i, esz), e), a, esz, i + 1, n, e)
  }

  /** Slots i to n-2 each take the value of the next one. */
  function ShiftElems(m: Mem, a: nat, esz: nat, i: nat, n: nat): Mem
    decreases n - i
  {
    if i + 1 >= n then m
    else ShiftElems(StoreElem(m, Slot(a, i, esz), Load(m, Slot(a, i + 1, esz), esz)), a, esz, i + 1, n)
  }

  lemma PutAndAppend(d: seq<Elem>, s: seq<Elem>, i: nat)
    requires i < |d| == |s|
    ensures d[i := s[i]][..i + 1] + s[i + 1..] == d[..i] + s[i..]
  {
  }

  lemma {:induction false} CopyElemsItems(m: Mem, dst: nat, src: nat, esz: nat, i: nat, n: nat)
    requires i <= n
    requires dst + Bytes(n, esz) <= src || src + Bytes(n, esz) <= dst
    ensures var m' := CopyElems(m, dst, src, esz, i, n);
            && SameOutside(m, m', dst, dst + Bytes(n, esz))
            && ItemsOf(m', dst, esz, n) == ItemsOf(m, dst, esz, n)[..i] + ItemsOf(m, src, esz, n)[i..]
    decreases n - i
  {
    if i < n {
      var e := Load(m, Slot(src, i, esz), esz);
      var m1 := StoreElem(m, Slot(dst, i, esz), e);
      ItemsStore(m, dst, esz, n, i, e);
      ItemsFrame(m, m1, src, esz, n, dst, dst + Bytes(n, esz));
      CopyElemsItems(m1, dst, src, esz, i + 1, n);
      var d, s := ItemsOf(m, dst, esz, n), ItemsOf(m, src, esz, n);
      PutAndAppend(d, s, i);
    }
  }

  function Repeat(e: Elem, n: nat): (r: seq<Elem>)
    ensures |r| == n && forall i :: 0 <= i < n ==> r[i] == e
  {
    seq(n, _ => e)
  }

  lemma {:induction false} FillElemsItems(m: Mem, a: nat, esz: nat, i: nat, n: nat, e: Elem)
    requires i <= n && |e| == esz
    ensures var m' := FillElems(m, a, esz, i, n, e);
            && SameOutside(m, m', a, a + Bytes(n, esz))
            && ItemsOf(m', a, esz, n) == ItemsOf(m, a, esz, n)[..i] + Repeat(e, n - i)
    decreases n - i
  {
    if i < n {
      var m1 := StoreElem(m, Slot(a, i, esz), e);
      ItemsStore(m, a, esz, n, i, e);
      FillElemsItems(m1, a, esz, i + 1, n, e);
      var d := ItemsOf(m, a, esz, n);
      assert d[i := e][..i + 1] + Repeat(e, n - i - 1) == d[..i] + Repeat(e, n - i);
    }
  }

  /** Removing slot i: everything after it moves down by one, in order; the last slot is left as it was. */
  lemma {:induction false} ShiftElemsSlots(m: Mem, a: nat, esz: nat, i: nat, n: nat)
    requires i < n
    ensures var m', d := ShiftElems(m, a, esz, i, n), ItemsOf(m, a, esz, n);
            && SameOutside(m, m', a, a + Bytes(n, esz))
            && ItemsOf(m', a, esz, n) == d[..i] + d[i + 1..] + [d[n - 1]]
    decreases n - i
  {
    var d := ItemsOf(m, a, esz, n);
    if i + 1 < n {
      var e := Load(m, Slot(a, i + 1, esz), esz);
      ItemsStore(m, a, esz, n, i, e);
      ShiftElemsSlots(StoreElem(m, Slot(a, i, esz), e), a, esz, i + 1, n);
      MoveDown(d, i);
    } else {
      assert d == d[..i] + d[i + 1..] + [d[n - 1]];
    }
  }

  lemma MoveDown(d: seq<Elem>, i: nat)
    requires i + 1 < |d|
    ensures var c := d[i := d[i + 1]];
            c[..i + 1] + c[i + 2..] + [c[|d| - 1]] == d[..i] + d[i + 1..] + [d[|d| - 1]]
  {
  }

  lemma ShiftElemsItems(m: Mem, a: nat, esz: nat, i: nat, n: nat)
    requires i < n
    ensures var m' := ShiftElems(m, a, esz, i, n);
            && SameOutside(m, m', a, a + Bytes(n, esz))
            && ItemsOf(m', a, esz, n)[..n - 1] == ItemsOf(m, a, esz, n)[..i] + ItemsOf(m, a, esz, n)[i + 1..]
  {
    ShiftElemsSlots(m, a, esz, i, n);
    var d := ItemsOf(m, a, esz, n);
    assert |d[..i] + d[i + 1..]| == n - 1;
  }
}
